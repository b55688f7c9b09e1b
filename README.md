# ESPHome time component and Xiaomi BLE record decoder, modelled in Dafny

This project models three pieces of ESPHome and proves properties of them.

- **Cron validators** (`esphome/components/time/__init__.py`). A field expression such as `0/15`, `MON-FRI`, `1,5-9` or `JAN` is parsed into the sorted list of values the field matches, or an error. This covers all six fields, the six-part cron line, the `at` time-of-day shorthand, and the rule that `cron`, `at` and the per-field keys exclude each other. Modules `Cron` and `Schedule`.
- **POSIX TZ synthesis** (same file). A zone's pytz transition tables and the current local time become a `TZ` string `STDoffset[DSToffset,Mm.w.d/time,Mm.w.d/time]`. Module `PosixTz`. The calendar behind it, Python's proleptic Gregorian `datetime`, is module `Civil`.
- **Xiaomi BLE service-data record decoder** (`esphome/components/xiaomi_ble/xiaomi_ble.cpp`, `parse_xiaomi_data_byte`). One type byte and its payload are decoded into a mutable parse result. Module `XiaomiBle`.

Python's `str(int)`, `int(str)`, `str.split` and `str.join` are modelled in module `Decimal`. `Option` and `Result` are in module `Wrappers`.

Style by part:

- The cron parser is pure functions.
- The loops in the validators become methods proved against those functions:
  - the element loop and the part loop of `cron_expression_validator`;
  - the key loop and the dictionary rebuild of `validate_cron_keys`;
  - `bisect_right` and the index reassignments of `convert_tz`.
- The decoder is a method that updates the fields of a `XiaomiParseResult` object in place.

## Model

| member | source | states |
|---|---|---|
| Decimal.ParseIntToString | esphome/components/time/__init__.py:126-127 | `int()` reads back every integer that `str()` writes |
| Decimal.ParseIntRejects | esphome/components/time/__init__.py:126-129 | `int()` rejects a token holding a character that is not a digit, sign, underscore or space |
| Decimal.MalformedNumbers | esphome/components/time/__init__.py:126-129 | `int()` also rejects the empty text, a bare sign, a doubled sign, a doubled underscore and a space between digits |
| Decimal.UnderscoreBetweenDigits | esphome/components/time/__init__.py:126-127 | a single underscore between digits is accepted, as Python 3's `int()` does |
| Decimal.SplitJoin | esphome/components/time/__init__.py:185 | splitting undoes joining pieces that do not contain the separator |
| Decimal.SplitCount | esphome/components/time/__init__.py:136-137 | a split has one more piece than the string has separators |
| Cron.IntegerTokenAccepted | esphome/components/time/__init__.py:122-127 | a token that is not an alias and is the decimal text of n is read as n |
| Cron.NonIntegerTokenRejected | esphome/components/time/__init__.py:122-129 | a token that is not an alias and holds a character that is not a digit, sign, underscore or whitespace gives the error tagged with the token's role |
| Cron.CronIntVerdict | esphome/components/time/__init__.py:122-129 | a token is rejected exactly when it is not an alias and `int()` refuses it, and the error then carries the token and its role |
| Cron.AliasesAreCaseSensitive | esphome/components/time/__init__.py:124-125 | `JAN` is month 1; `jan` is an error, because aliases match exactly |
| Cron.AnyIsFullRange | esphome/components/time/__init__.py:133-134 | `*` and `?` match exactly the field's range |
| Cron.StepOf | esphome/components/time/__init__.py:140-151 | errors in order: offset, then repeat, then a zero step; otherwise the members of `range(offset, max+1, repeat)`, for either sign of the step |
| Cron.StepMembers | esphome/components/time/__init__.py:135-151 | `A/B` with B > 0 matches exactly the values from A up to max that differ from A by a multiple of B; an empty A means 0 |
| Cron.StepExpression | esphome/components/time/__init__.py:135-151 | those values are exactly A, A+B, A+2B, ... up to the maximum |
| Cron.ZeroStep | esphome/components/time/__init__.py:146-151 | `A/0` is the `range()` ValueError |
| Cron.StarOffsetRejected | esphome/components/time/__init__.py:135-145 | a step with the offset `*` is always rejected on that offset, which is no integer |
| Cron.ZeroStepForms | esphome/components/time/__init__.py:135-151 | `*/0` fails on its offset `*`; `/0` and `N/0` give the zero-step error |
| Cron.EmptyStepAccepted | esphome/components/time/__init__.py:135-187 | a step whose offset lies past the field's maximum matches nothing, and the text branch accepts it as the empty list (`70/5` for minutes) |
| Cron.RangeOf | esphome/components/time/__init__.py:157-165 | errors in order: begin, then end; `begin..end` when in order, otherwise `end..max` together with `min..begin` |
| Cron.RangeExpression | esphome/components/time/__init__.py:152-165 | `A-B` matches A..B when A <= B, and B..max together with min..A when B < A |
| Cron.EmptyBoundRejected | esphome/components/time/__init__.py:152-161 | a range with an empty bound fails on that empty token: `-B` always, and `A-` once A is read |
| Cron.BackwardRangeCoversWeek | esphome/components/time/__init__.py:162-164 | backward `FRI-MON` on the days of week matches all seven days |
| Cron.TooManySeparators | esphome/components/time/__init__.py:135-139 | more than one `/` is an error; with no `/`, more than one `-` is an error |
| Cron.UnionOfMeaning | esphome/components/time/__init__.py:184-186 | the running union succeeds iff every part does; its members are exactly those of some part; otherwise it holds the first failing part's error |
| Cron.ParsePartsMeaning | esphome/components/time/__init__.py:184-186 | the same for the comma parts of a field expression |
| Cron.FirstBadInt | esphome/components/time/__init__.py:174-181 | a list of integers passes iff all are in range; otherwise the error names an out-of-range element |
| Cron.Sort | esphome/components/time/__init__.py:182 | `sorted()` returns an ascending permutation of its input |
| Cron.SortedDistinct | esphome/components/time/__init__.py:182-187 | a sorted permutation of a duplicate-free list is strictly ascending |
| Cron.StrictlySortedUnique | esphome/components/time/__init__.py:182-187 | two strictly ascending lists with the same elements are equal |
| Cron.SetToList | esphome/components/time/__init__.py:187 | `list(values)` holds every element of the set exactly once |
| Cron.ListOfUnion | esphome/components/time/__init__.py:182-187 | passing the union, as a list, to the list branch gives the verdict the text branch promises |
| Cron.ValidateList | esphome/components/time/__init__.py:173-182 | the first non-integer or out-of-range element is the error; otherwise the input sorted |
| Cron.ValidateText | esphome/components/time/__init__.py:183-187 | the first part's error, or an error naming an out-of-range value, or the union ascending without duplicates |
| Cron.VerdictAccepts | esphome/components/time/__init__.py:183-187 | the text branch accepts exactly the expressions that parse with every value in range |
| Cron.FullRangeVerdict | esphome/components/time/__init__.py:183-187 | `*` through the validator is the field's whole range in ascending order |
| Cron.Validate | esphome/components/time/__init__.py:171-189 | a list input goes through the list branch; text goes through the text branch |
| Schedule.ValidateCronRaw | esphome/components/time/__init__.py:207-221 | a wrong part count is an error carrying the count; accepted iff all six parts pass their fields in order; the values each field gives; otherwise the first failing field's error |
| Schedule.ValidateTimeAt | esphome/components/time/__init__.py:224-233 | single hour, minute and second; every day of month, month and day of week |
| Schedule.ValidateAny | esphome/components/time/__init__.py:230-232 | a field validator applied to `*` gives the field's whole range |
| Schedule.FindFieldKey | esphome/components/time/__init__.py:238-240 | finds a field key iff the configuration has one |
| Schedule.Without | esphome/components/time/__init__.py:244 | the dictionary with one key removed |
| Schedule.Update | esphome/components/time/__init__.py:245 | `update` adds a field key for each field of the map, overriding what was there |
| Schedule.FieldEntriesUpdate | esphome/components/time/__init__.py:245 | adding one field to the map adds exactly its entry |
| Schedule.Merged | esphome/components/time/__init__.py:243-246 | the shorthand key is removed, other keys are kept, and one field key is added per field |
| Schedule.ValidateCronKeys | esphome/components/time/__init__.py:236-255 | `cron` beside a field key, or `cron` beside `at`, is an error; `at` beside a field key is an error; a shorthand alone is merged; with neither, at least one field key is required |
| Schedule.AcceptedKeysAreExpanded | esphome/components/time/__init__.py:236-255 | an accepted configuration holds neither shorthand, keeps every other key, and holds a field key unless the shorthand was empty |
| Schedule.ShorthandExpanded | esphome/components/time/__init__.py:236-255 | when the shorthand holds the six-field dictionary `validate_cron_raw` or `validate_time_at` returns, an accepted configuration holds all six field keys, each with its field's values, and neither shorthand |
| Civil.DaysInMonth | esphome/components/time/__init__.py:43-45 | 28 to 31 days, and 29 exactly for February of a leap year |
| Civil.FromInstant | esphome/components/time/__init__.py:89 | the `datetime` of an instant is a valid date and time whose instant is that one |
| Civil.FromToInstant | esphome/components/time/__init__.py:89 | reading a valid `datetime` back from its instant gives it again |
| Civil.YearOfInstant | esphome/components/time/__init__.py:89 | the year computed on its own is the `.year` of the `datetime` |
| Civil.FirstOfMonth | esphome/components/time/__init__.py:43 | `dt.replace(day=1)` is a valid date whose weekday is `FirstWeekday` |
| PosixTz.FormatOffset | esphome/components/time/__init__.py:28-38 | the text is `0` exactly for a zero offset |
| PosixTz.FormatParts | esphome/components/time/__init__.py:32-38 | `0` exactly when all three components are zero |
| PosixTz.OffsetComponents | esphome/components/time/__init__.py:29-31 | the hours (truncated toward zero), minutes and seconds recompose the offset |
| PosixTz.FormatReadsBack | esphome/components/time/__init__.py:28-38 | a POSIX reader recovers every offset except those of zones less than one hour east of UTC |
| PosixTz.SignLostBelowOneHour | esphome/components/time/__init__.py:29-38 | the offset of a zone less than one hour east of UTC (a POSIX offset strictly between -3600 and 0) is written as its opposite, and reads back as that opposite |
| PosixTz.WeekRowAgainstOccurrence | esphome/components/time/__init__.py:42-46 | the week number is the weekday's occurrence in the month, or one more when the day lies before the weekday of the 1st; it is between 1 and 6 |
| PosixTz.SundayWeekIsOccurrence | esphome/components/time/__init__.py:42-46 | for a Sunday the week number is the occurrence POSIX means, at most 5 |
| PosixTz.SaturdayRowIsNotOccurrence | esphome/components/time/__init__.py:42-46 | Saturday 7 September 2019 is the first Saturday of its month, but its week number is 2 |
| PosixTz.RuleReadsBack | esphome/components/time/__init__.py:49-52 | the rule text of a valid `datetime` reads back as its month, week number, weekday (Sunday 0) and time |
| PosixTz.RuleTextReadsBack | esphome/components/time/__init__.py:49-52 | a rule with non-negative fields reads back from its text |
| PosixTz.RuleBounds | esphome/components/time/__init__.py:49-52 | month 1-12, week 1-6, weekday 0-6, time within the day |
| PosixTz.DesignationReadsBack | esphome/components/time/__init__.py:55-61 | what follows the name is the offset text, and it reads back as the offset |
| PosixTz.CountPartition | esphome/components/time/__init__.py:76 | in chronological tables, the transitions at or before `now` are exactly the first `CountUpTo` ones |
| PosixTz.BisectRight | esphome/components/time/__init__.py:76 | the split point between entries not after `x` and entries after it |
| PosixTz.PartitionUnique | esphome/components/time/__init__.py:76 | that split point is unique |
| PosixTz.SelectTransitions | esphome/components/time/__init__.py:76-92 | the index search with its guarded exits chooses what `Choose` states |
| PosixTz.ChosenPair | esphome/components/time/__init__.py:76-92 | the pair starts at the first transition after `now`, or at the one after it when the first has no DST offset; it ends at the transition that follows, no later than the year after `now`'s |
| PosixTz.ShiftedRecordNotChecked | esphome/components/time/__init__.py:80-84 | when the first transition after `now` has no DST offset, the pair starts at the next record without that record's DST offset being checked |
| PosixTz.FewAheadIsFixed | esphome/components/time/__init__.py:77-87 | with at most one transition after `now`, the fixed form is used |
| PosixTz.ConvertTz | esphome/components/time/__init__.py:64-109 | the string for the zone: the fixed form, the DST form, or the date overflow |
| PosixTz.DstPieces | esphome/components/time/__init__.py:101-109 | the DST form has three comma pieces: both designations, the start rule, the end rule |
| PosixTz.LocalPairFormPieces | esphome/components/time/__init__.py:94-109 | the DST form for two local instants is an error exactly when `datetime` cannot hold one of them; otherwise it has three comma pieces, both designations and two rules that read back as the rules of those instants |
| PosixTz.RulePieces | esphome/components/time/__init__.py:94-109 | the DST form's two rules read back as the rules of the local start and end times |
| XiaomiBle.U16 | esphome/components/xiaomi_ble/xiaomi_ble.cpp:42-48 | two little-endian bytes as an unsigned value below 2^16 |
| XiaomiBle.Signed16 | esphome/components/xiaomi_ble/xiaomi_ble.cpp:16-17 | storing into `int16_t` gives the value in [-2^15, 2^15) that agrees with the pattern modulo 2^16 |
| XiaomiBle.U24 | esphome/components/xiaomi_ble/xiaomi_ble.cpp:52 | three little-endian bytes as an unsigned value below 2^24 |
| XiaomiBle.Pattern16RoundTrip | esphome/components/xiaomi_ble/xiaomi_ble.cpp:16 | assembling the two bytes of a 16-bit pattern gives the pattern |
| XiaomiBle.Bytes16RoundTrip | esphome/components/xiaomi_ble/xiaomi_ble.cpp:16 | splitting an assembled pattern gives back its bytes |
| XiaomiBle.Pattern24RoundTrip | esphome/components/xiaomi_ble/xiaomi_ble.cpp:52 | assembling the three bytes of a 24-bit pattern gives the pattern |
| XiaomiBle.SensorWrites | esphome/components/xiaomi_ble/xiaomi_ble.cpp:13-61 | sensor records write no scale fields, and every reading lies within its integer width |
| XiaomiBle.ScaleWrites | esphome/components/xiaomi_ble/xiaomi_ble.cpp:62-118 | scale records write only weight, impedance and time; the raw weight is below 2^16; the impedance is strictly between 0 and 3000 |
| XiaomiBle.Merge | esphome/components/xiaomi_ble/xiaomi_ble.cpp:11-124 | writing nothing leaves the result as it was |
| XiaomiBle.XiaomiParseResult.constructor | esphome/components/xiaomi_ble/xiaomi_ble.cpp:63 | a result for the given device type, with no readings |
| XiaomiBle.ParseXiaomiDataByte | esphome/components/xiaomi_ble/xiaomi_ble.cpp:11-124 | returns true exactly for the accepted records; the device type is unchanged; the fields become the old ones overwritten by what the record writes |
| XiaomiBle.ParseScaleRecord | esphome/components/xiaomi_ble/xiaomi_ble.cpp:62-121 | the same for case 0x16 |
| XiaomiBle.AcceptedIffReading | esphome/components/xiaomi_ble/xiaomi_ble.cpp:11-124 | a scale record is accepted iff it yields a weight; any other record is accepted iff it writes some field |
| XiaomiBle.RejectedWritesNothing | esphome/components/xiaomi_ble/xiaomi_ble.cpp:13-61 | a rejected sensor record leaves the result unchanged |
| XiaomiBle.RejectedScaleRecord | esphome/components/xiaomi_ble/xiaomi_ble.cpp:62-121 | a rejected scale record still writes its time when it is a 10- or 13-byte Mi scale record, can write an impedance only in the 13-byte form, and writes nothing else |
| XiaomiBle.ImpedanceRecorded | esphome/components/xiaomi_ble/xiaomi_ble.cpp:91-106 | the impedance is kept iff the flag bit is set and the value lies strictly between 0 and 3000, and then it is bytes 9-10 |
| XiaomiBle.Scale10Units | esphome/components/xiaomi_ble/xiaomi_ble.cpp:65-87 | in an accepted 10-byte record, the unit byte selects the scale and the raw weight is bytes 1-2 |
| XiaomiBle.TemperatureHumidityRoundTrip | esphome/components/xiaomi_ble/xiaomi_ble.cpp:13-21 | a 0x0D record built from two 16-bit patterns is accepted and decodes to their signed values |
| XiaomiBle.IlluminanceRoundTrip | esphome/components/xiaomi_ble/xiaomi_ble.cpp:49-55 | a 0x07 record built from a 24-bit reading is accepted and decodes to that reading |

## Where the code differs from the component's described design

The model follows the code in each case.

- A backward range `A-B` (B < A) is described as `A..max` together with `min..B`. The code builds `B..max` together with `min..A`. So `FRI-MON` matches the whole week (`Cron.RangeExpression`, `Cron.BackwardRangeCoversWeek`).
- The week of a rule is described as 1 to 5. The code computes the Monday-started calendar row, which can be 6. For a rule that does not fall on a Sunday, the row can also differ from the weekday occurrence that POSIX `Mm.w.d` means (`PosixTz.WeekRowAgainstOccurrence`, `PosixTz.SaturdayRowIsNotOccurrence`).
- The DST string is described as having four comma-separated parts. The code writes three (`PosixTz.DstPieces`).
- The offset of a zone less than one hour east of UTC loses its sign, because the hour component is 0 (`PosixTz.SignLostBelowOneHour`).
- DST is described as switching on at the pair's first transition. When the first transition after `now` has no DST offset, the code moves on to the next record and does not check that one, so the pair can start at a record without DST (`PosixTz.ShiftedRecordNotChecked`).
- The list of values is described as never empty. A step whose offset lies past the field's maximum, such as `70/5` for minutes, matches nothing, and the validator returns the empty list (`Cron.EmptyStepAccepted`).
- A step of 0 (`/0` or `N/0`) is a ValueError from `range()`, not a validation error. It is the separate error `StepIsZero`. With the offset `*`, as in `*/0`, the part fails earlier, on the offset, which is no integer (`Cron.ZeroStepForms`).
- A 10-byte or 13-byte Mi scale record writes the measurement time before its unit check, so the time stays written when the record is then rejected. A rejected 13-byte record can also leave its impedance written (`XiaomiBle.RejectedScaleRecord`).

## Left out

- I/O and logging (`_LOGGER`, `ESP_LOGD`) are left out, since they do not affect results.
- `datetime.datetime.now()` is an input, `now`: a naive local instant in whole seconds from 0001-01-01.
- Which pytz record applies at `now` (`tz.tzname`, `tz.utcoffset`) is an input, `current`, because pytz's lookup is not part of this model.
- For a zone without DST, the single record of that zone is used. The source asks for it at the first of January, which is the same record.
- `isinstance(tz, DstTzInfo)` is the `Zone` variant.
- `detect_tz`, `validate_tz`, `tzlocal` and the pytz database are not part of this model.
- Code generation (`setup_time_core_`, `register_time`, `to_code`) and the schema declarations are left out, since they only produce C++.
- `cv.string`, `cv.time_of_day` and `cv.has_at_least_one_key` are not part of this model. Their inputs arrive already converted: text, a list of items, or hour, minute and second.
- Error messages are left out. Each error is a constructor recording which check failed and the offending token or value.
- Microseconds are not modelled. Transition instants and offsets are whole seconds, as pytz's tables hold them.
- Decimal.ParseInt follows Python 3's `int()`, which accepts single underscores between digits. Under Python 2, which the component also runs on (its `string_types` comes from `esphome.py_compat`), `int("1_0")` raises instead.
- Characters are compared code point by code point. Python's Unicode digits and whitespace beyond ASCII are not modelled.
- Python's `bool` counts as an integer in `isinstance(v, int)`. The model has only integer and non-integer items.
- Python set iteration order and dictionary key order are not modelled. `Cron.SetToList`, `Schedule.FindFieldKey` and `Schedule.Update` pick elements in an unspecified order. Their contracts hold for every order.
- OverflowError from `datetime + timedelta` outside years 1 to 9999 is `DateOutOfRange`. WellFormed zone tables keep their instants inside that range.
- XiaomiBle: floating-point scaling is not modelled (`/ 10.0f`, `* 0.01f / 2.0f`, `* 0.6`, `* 0.453592`). Readings hold the integers the firmware assembles, and the weight records which scale factor applies.
- XiaomiBle: `mktime` and the `time_t` it yields are not modelled, because they depend on the C library's time zone. The `struct tm` fields are recorded instead.
- XiaomiBle: the raw `data` pointer and `data_length` are a byte sequence shorter than 256.
- XiaomiBle: `parse_xiaomi`, `parse_device` and `esphome/core/util.cpp` are not part of this model. `xiaomi_ble.h` is not part of this model either, so the device type only distinguishes a Mi scale from the rest.
- Cron.Sort: Python's `sorted()` is modelled by an insertion sort. Only its result is specified, not the algorithm.
