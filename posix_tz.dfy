/**
 * The POSIX TZ string synthesiser: a zone's UTC offsets and its next pair of
 * daylight-saving transitions become `STDoffset[DSToffset,start,end]`, the
 * form a C library's `TZ` variable accepts. Offsets and instants are whole
 * seconds; instants are naive and counted as in `Civil`.
 */
module PosixTz {
  import opened Wrappers
  import opened Decimal
  import Civil

  function Abs(s: int): nat { if s < 0 then -s else s }

  /** `int(td.total_seconds() / 3600)`: whole hours, truncated toward zero, so they keep the sign. */
  function OffsetHours(s: int): int { if s < 0 then -(Abs(s) / 3600) else s / 3600 }

  /** `int(abs(td.total_seconds() / 60)) % 60`: the minutes of the magnitude. */
  function OffsetMinutes(s: int): nat { Abs(s) / 60 % 60 }

  /** `int(abs(td.total_seconds())) % 60`: the seconds of the magnitude. */
  function OffsetSeconds(s: int): nat { Abs(s) % 60 }

  /**
   * `_tz_timedelta`: an offset of `s` seconds as `H`, `H:M` or `H:M:S`, the
   * trailing zero components left off, and `0` for no offset at all.
   */
  function FormatOffset(s: int): (text: string)
    ensures text == "0" <==> s == 0
  {
    FormatParts(OffsetHours(s), OffsetMinutes(s), OffsetSeconds(s))
  }

  /** The text `_tz_timedelta` writes for its three components. */
  function FormatParts(h: int, m: nat, sec: nat): (text: string)
    ensures text == "0" <==> h == 0 && m == 0 && sec == 0
  {
    if h == 0 && m == 0 && sec == 0 then "0"
    else if m == 0 && sec == 0 then IntToString(h)
    else if sec == 0 then IntToString(h) + ":" + IntToString(m)
    else IntToString(h) + ":" + IntToString(m) + ":" + IntToString(sec)
  }

  /** An offset's text holds only digits, minus signs and colons, so none of the rule separators. */
  lemma OffsetSeparators(s: int, c: char)
    requires c != ':' && c != '-' && !IsDigit(c)
    ensures c !in FormatOffset(s)
  {
    var h, m, sec := OffsetHours(s), OffsetMinutes(s), OffsetSeconds(s);
    NotInIntToString(h, c);
    NotInIntToString(m, c);
    NotInIntToString(sec, c);
  }

  /** A string of decimal digits, read as a number. */
  function ReadNumber(piece: string): Option<nat>
  {
    if piece != [] && AllDigits(piece) then Some(DigitsValue(piece)) else None
  }

  /**
   * How a POSIX reader takes an offset `[+|-]hh[:mm[:ss]]`: the sign in front
   * applies to the whole offset.
   */
  function ReadOffset(text: string): Option<int>
  {
    ReadPieces(Split(text, ':'))
  }

  /** `ReadOffset` on the pieces between the colons. */
  function ReadPieces(parts: seq<string>): Option<int>
    requires |parts| >= 1
  {
    var hour := parts[0];
    var signed := hour != [] && (hour[0] == '-' || hour[0] == '+');
    var h := ReadNumber(if signed then hour[1..] else hour);
    var m := if |parts| >= 2 then ReadNumber(parts[1]) else Some(0);
    var sec := if |parts| >= 3 then ReadNumber(parts[2]) else Some(0);
    if |parts| > 3 || h.None? || m.None? || sec.None? then None
    else
      var magnitude := h.value * 3600 + m.value * 60 + sec.value;
      Some(if signed && hour[0] == '-' then -magnitude else magnitude)
  }

  lemma ReadNatToString(n: nat)
    ensures ReadNumber(NatToString(n)) == Some(n)
  {
    NatToStringValue(n);
  }

  /** The three components put back together give the magnitude of the offset. */
  lemma OffsetComponents(s: int)
    ensures Abs(OffsetHours(s)) * 3600 + OffsetMinutes(s) * 60 + OffsetSeconds(s) == Abs(s)
    ensures OffsetHours(s) < 0 <==> s <= -3600
    ensures OffsetMinutes(s) < 60 && OffsetSeconds(s) < 60
  {
    var a := Abs(s);
    var q, r := a / 60, a % 60;
    assert a == 60 * q + r;
    assert q == 60 * (q / 60) + q % 60;
    Civil.DivUnique(a, 3600, q / 60, q % 60 * 60 + r);
  }

  /** The hour text of an offset reads back as the hours' magnitude, with the sign `str()` gave it. */
  lemma ReadHour(h: int)
    ensures var t := IntToString(h);
      t != [] && (t[0] == '-' <==> h < 0) && t[0] != '+'
      && ReadNumber(if t[0] == '-' || t[0] == '+' then t[1..] else t) == Some(Abs(h))
  {
    var t := IntToString(h);
    ReadNatToString(Abs(h));
    if h < 0 {
      assert t[1..] == NatToString(-h);
    } else {
      assert t == NatToString(h);
    }
  }

  /** `h` hours, `m` minutes and `sec` seconds, carrying the sign of `h`. */
  function Signed(h: int, m: nat, sec: nat): int
  {
    var magnitude := Abs(h) * 3600 + m * 60 + sec;
    if h < 0 then -magnitude else magnitude
  }

  lemma ReadHours(h: int)
    ensures ReadOffset(IntToString(h)) == Some(Signed(h, 0, 0))
  {
    var t := IntToString(h);
    NotInIntToString(h, ':');
    assert Split(t, ':') == [t];
    ReadSigned([t], h, 0, 0);
  }

  /** Pieces led by the text of `h`, followed by the numbers `m` and `sec` where present, read as `Signed(h, m, sec)`. */
  lemma ReadSigned(parts: seq<string>, h: int, m: nat, sec: nat)
    requires 1 <= |parts| <= 3 && parts[0] == IntToString(h)
    requires if |parts| >= 2 then ReadNumber(parts[1]) == Some(m) else m == 0
    requires if |parts| >= 3 then ReadNumber(parts[2]) == Some(sec) else sec == 0
    ensures ReadPieces(parts) == Some(Signed(h, m, sec))
  {
    ReadHour(h);
  }

  lemma ReadHoursMinutes(h: int, m: nat)
    ensures ReadOffset(IntToString(h) + ":" + IntToString(m)) == Some(Signed(h, m, 0))
  {
    var ht, mt := IntToString(h), IntToString(m);
    NotInIntToString(h, ':');
    NotInIntToString(m, ':');
    assert ht + ":" + mt == ht + [':'] + mt;
    SplitTwo(ht, mt, ':');
    assert mt == NatToString(m);
    ReadNatToString(m);
    ReadSigned([ht, mt], h, m, 0);
  }

  lemma ReadHoursMinutesSeconds(h: int, m: nat, sec: nat)
    ensures ReadOffset(IntToString(h) + ":" + IntToString(m) + ":" + IntToString(sec)) == Some(Signed(h, m, sec))
  {
    var ht, mt, st := IntToString(h), IntToString(m), IntToString(sec);
    NotInIntToString(h, ':');
    NotInIntToString(m, ':');
    NotInIntToString(sec, ':');
    assert ht + ":" + mt + ":" + st == ht + [':'] + mt + [':'] + st;
    SplitThree(ht, mt, st, ':');
    assert mt == NatToString(m) && st == NatToString(sec);
    ReadNatToString(m);
    ReadNatToString(sec);
    ReadSigned([ht, mt, st], h, m, sec);
  }

  /**
   * A POSIX reader recovers every offset `FormatOffset` writes, except those
   * strictly between -3600 and 0: in POSIX's west-positive sign these are the
   * zones less than one hour east of UTC (see `SignLostBelowOneHour`).
   */
  lemma FormatReadsBack(s: int)
    requires s >= 0 || s <= -3600
    ensures ReadOffset(FormatOffset(s)) == Some(s)
  {
    var h, m, sec := OffsetHours(s), OffsetMinutes(s), OffsetSeconds(s);
    OffsetComponents(s);
    assert Signed(h, m, sec) == s;
    if h == 0 && m == 0 && sec == 0 {
      ReadHours(0);
    } else if m == 0 && sec == 0 {
      ReadHours(h);
    } else if sec == 0 {
      ReadHoursMinutes(h, m);
    } else {
      ReadHoursMinutesSeconds(h, m, sec);
    }
  }

  /**
   * Strictly between -3600 and 0 (a zone less than one hour east of UTC, whose
   * `utcoffset` lies strictly between 0 and 3600) the hour component is 0,
   * which has no sign: such an offset is written exactly as its opposite, and
   * is read back as it.
   */
  lemma SignLostBelowOneHour(s: int)
    requires -3600 < s < 0
    ensures FormatOffset(s) == FormatOffset(-s)
    ensures ReadOffset(FormatOffset(s)) == Some(-s)
  {
    SameComponents(s);
    FormatReadsBack(-s);
  }

  lemma SameComponents(s: int)
    requires -3600 < s < 0
    ensures FormatOffset(s) == FormatOffset(-s)
  {
    assert OffsetHours(s) == 0 == OffsetHours(-s)
      && OffsetMinutes(s) == OffsetMinutes(-s) && OffsetSeconds(s) == OffsetSeconds(-s) by {
      assert Abs(s) == Abs(-s) < 3600;
    }
  }

  /** The local time of day of a `datetime`, in seconds: the `timedelta` `_tz_dst_str` builds. */
  function TimeOfDay(dt: Civil.DateTime): int { dt.hour * 3600 + dt.minute * 60 + dt.second }

  /**
   * `_week_of_month`: `ceil((day + weekday of the 1st) / 7)`, the row of the
   * day in a month calendar whose weeks start on Monday.
   */
  function WeekOfMonth(dt: Civil.DateTime): int
  {
    (dt.day + Civil.FirstWeekday(dt) + 6) / 7
  }

  /** Which occurrence of its weekday in the month a day is: what the `w` of POSIX `Mm.w.d` counts. */
  function Occurrence(dt: Civil.DateTime): int { (dt.day - 1) / 7 + 1 }

  /**
   * The week row is the occurrence of the weekday, or one more when the
   * month's first such weekday falls after its first Monday-started row.
   */
  lemma WeekRowAgainstOccurrence(dt: Civil.DateTime)
    requires Civil.Valid(dt)
    ensures WeekOfMonth(dt) == Occurrence(dt) + (if (dt.day - 1) % 7 > dt.weekday then 1 else 0)
    ensures 1 <= WeekOfMonth(dt) <= 6
  {
    RowArithmetic(dt.day, dt.weekday);
  }

  lemma RowArithmetic(day: int, wd: int)
    requires 1 <= day <= 31 && 0 <= wd < 7
    ensures (day + (wd - (day - 1)) % 7 + 6) / 7 == (day - 1) / 7 + 1 + (if (day - 1) % 7 > wd then 1 else 0)
    ensures 1 <= (day + (wd - (day - 1)) % 7 + 6) / 7 <= 6
  {
    var q, r := (day - 1) / 7, (day - 1) % 7;
    var fw := (wd - (day - 1)) % 7;
    FirstWeekdayValue(day, wd);
    if r <= wd {
      Civil.DivUnique(day + fw + 6, 7, q + 1, wd);
    } else {
      Civil.DivUnique(day + fw + 6, 7, q + 2, wd);
    }
  }

  lemma FirstWeekdayValue(day: int, wd: int)
    requires 0 <= wd < 7
    ensures day - 1 == 7 * ((day - 1) / 7) + (day - 1) % 7
    ensures (wd - (day - 1)) % 7 == wd - (day - 1) % 7 + (if (day - 1) % 7 <= wd then 0 else 7)
  {
    var q, r := (day - 1) / 7, (day - 1) % 7;
    if r <= wd {
      Civil.DivUnique(wd - (day - 1), 7, -q, wd - r);
    } else {
      Civil.DivUnique(wd - (day - 1), 7, -q - 1, wd - r + 7);
    }
  }



  /** For a Sunday, the rule's week number is the occurrence POSIX means, at most 5. */
  lemma SundayWeekIsOccurrence(dt: Civil.DateTime)
    requires Civil.Valid(dt) && dt.weekday == 6
    ensures WeekOfMonth(dt) == Occurrence(dt) <= 5
  {
    WeekRowAgainstOccurrence(dt);
  }

  /**
   * Saturday 7 September 2019 (the month began on a Sunday) is the first
   * Saturday of its month, but sits in the second Monday-started row.
   */
  lemma SaturdayRowIsNotOccurrence()
    ensures var dt := Civil.DateTime(2019, 9, 7, 2, 0, 0, 5);
      Civil.Valid(dt) && Occurrence(dt) == 1 && WeekOfMonth(dt) == 2
  {
    var dt := Civil.DateTime(2019, 9, 7, 2, 0, 0, 5);
    assert Civil.DaysBeforeMonth(2019, 9) == 243 by { Civil.TwelveMonths(2019); }
    assert Civil.DayNumber(2019, 9, 7) == 737308;
  }

  /** The fields of a POSIX `Mm.w.d/time` rule. */
  datatype Rule = Rule(month: int, week: int, weekday: int, time: int)

  /** The rule `_tz_dst_str` means to write for a transition at local time `dt`. */
  function RuleOf(dt: Civil.DateTime): Rule
  {
    Rule(dt.month, WeekOfMonth(dt), (dt.weekday + 1) % 7, TimeOfDay(dt))
  }

  /** `_tz_dst_str`: `M<month>.<week of month>.<isoweekday % 7>/<time of day>`. */
  function DstRule(dt: Civil.DateTime): string
  {
    RuleText(RuleOf(dt))
  }

  /** The text `Mm.w.d/time` of a rule, its fields written by `str()` and the time by `_tz_timedelta`. */
  function RuleText(rule: Rule): string
  {
    "M" + IntToString(rule.month) + "." + IntToString(rule.week) + "." + IntToString(rule.weekday)
      + "/" + FormatOffset(rule.time)
  }

  /** How a POSIX reader takes an `Mm.w.d/time` rule. */
  function ReadRule(text: string): Option<Rule>
  {
    ReadRuleHalves(Split(text, '/'))
  }

  /** `ReadRule` on the date and the time, the pieces either side of `/`. */
  function ReadRuleHalves(halves: seq<string>): Option<Rule>
  {
    if |halves| != 2 || halves[0] == [] || halves[0][0] != 'M' then None
    else ReadRuleFields(Split(halves[0][1..], '.'), ReadOffset(halves[1]))
  }

  /** `ReadRule` on the pieces of `m.w.d` and the time already read. */
  function ReadRuleFields(fields: seq<string>, time: Option<int>): Option<Rule>
  {
    if |fields| != 3 then None
    else
      match (ReadNumber(fields[0]), ReadNumber(fields[1]), ReadNumber(fields[2]), time)
      case (Some(m), Some(w), Some(d), Some(t)) => Some(Rule(m, w, d, t))
      case _ => None
  }

  /** A rule written for a valid `datetime` reads back as its month, week row, weekday (Sunday 0) and time. */
  lemma {:induction false} RuleReadsBack(dt: Civil.DateTime)
    requires Civil.Valid(dt)
    ensures ReadRule(DstRule(dt)) == Some(RuleOf(dt))
  {
    WeekRowAgainstOccurrence(dt);
    RuleTextReadsBack(RuleOf(dt));
  }

  /** The fields of a rule for a valid `datetime` are in the ranges POSIX gives them, except that the week can reach 6. */
  lemma RuleBounds(dt: Civil.DateTime)
    requires Civil.Valid(dt)
    ensures 1 <= RuleOf(dt).month <= 12 && 1 <= RuleOf(dt).week <= 6
    ensures 0 <= RuleOf(dt).weekday <= 6 && 0 <= RuleOf(dt).time < 86400
  {
    WeekRowAgainstOccurrence(dt);
  }

  /** A rule with non-negative fields reads back from its text. */
  lemma RuleTextReadsBack(rule: Rule)
    requires rule.month >= 0 && rule.week >= 0 && rule.weekday >= 0 && rule.time >= 0
    ensures ReadRule(RuleText(rule)) == Some(rule)
  {
    var a, b, c := IntToString(rule.month), IntToString(rule.week), IntToString(rule.weekday);
    var f := FormatOffset(rule.time);
    var head := a + ['.'] + b + ['.'] + c;
    assert RuleText(rule) == ['M'] + head + ['/'] + f;
    NotInIntToString(rule.month, '/');
    NotInIntToString(rule.week, '/');
    NotInIntToString(rule.weekday, '/');
    OffsetSeparators(rule.time, '/');
    ReadRuleSplit(head, f);
    FormatReadsBack(rule.time);
    RuleHeadReadsBack(rule.month, rule.week, rule.weekday, rule.time);
  }

  /** A rule text `M<head>/<time>` is read as the fields of its head and the offset of its time. */
  lemma ReadRuleSplit(head: string, time: string)
    requires '/' !in head && '/' !in time
    ensures ReadRule(['M'] + head + ['/'] + time) == ReadRuleFields(Split(head, '.'), ReadOffset(time))
  {
    SplitTwo(['M'] + head, time, '/');
    assert (['M'] + head)[1..] == head;
  }

  lemma RuleHeadReadsBack(month: nat, week: nat, weekday: nat, time: int)
    ensures var a, b, c := IntToString(month), IntToString(week), IntToString(weekday);
      ReadRuleFields(Split(a + ['.'] + b + ['.'] + c, '.'), Some(time)) == Some(Rule(month, week, weekday, time))
  {
    var a, b, c := IntToString(month), IntToString(week), IntToString(weekday);
    NotInIntToString(month, '.');
    NotInIntToString(week, '.');
    NotInIntToString(weekday, '.');
    SplitThree(a, b, c, '.');
    assert a == NatToString(month) && b == NatToString(week) && c == NatToString(weekday);
    ReadNatToString(month);
    ReadNatToString(week);
    ReadNatToString(weekday);
  }

  /** A pytz transition record `(utcoffset, dst, tzname)`, offsets in seconds. */
  datatype TransitionInfo = TransitionInfo(utcOffset: int, dstOffset: int, name: string)

  /**
   * The zone `convert_tz` is given: a zone with one fixed offset, or a
   * `DstTzInfo` with its transition instants (naive UTC) and their records.
   */
  datatype Zone =
    | StaticZone(info: TransitionInfo)
    | DstZone(times: seq<int>, infos: seq<TransitionInfo>)

  /** Python's OverflowError from `datetime + timedelta` leaving years 1 to 9999. */
  datatype TzError = DateOutOfRange

  predicate Chronological(times: seq<int>)
  {
    forall i, j :: 0 <= i < j < |times| ==> times[i] <= times[j]
  }

  /** The tables as pytz keeps them: one record per transition, instants in order and inside `datetime`'s range. */
  predicate WellFormed(zone: Zone)
  {
    zone.DstZone? ==>
      && |zone.times| == |zone.infos|
      && Chronological(zone.times)
      && forall i :: 0 <= i < |zone.times| ==> Civil.InRange(zone.times[i])
  }

  /** `_non_dst_tz`: the zone's name and its offset, negated to POSIX's west-positive sign. */
  function NonDst(info: TransitionInfo): string
  {
    Designation(info.name, -info.utcOffset)
  }

  /** A zone name followed by a POSIX offset of `offset` seconds. */
  function Designation(name: string, offset: int): string
  {
    name + FormatOffset(offset)
  }

  /** The number of transitions at or before `now`. */
  function CountUpTo(times: seq<int>, now: int): (n: nat)
    ensures n <= |times|
  {
    if times == [] then 0
    else CountUpTo(times[..|times| - 1], now) + (if times[|times| - 1] <= now then 1 else 0)
  }

  /** In chronological tables the transitions at or before `now` are exactly the first `CountUpTo` ones. */
  lemma {:induction false} CountPartition(times: seq<int>, now: int)
    requires Chronological(times)
    ensures forall j :: 0 <= j < |times| ==> (times[j] <= now <==> j < CountUpTo(times, now))
  {
    if times != [] {
      var init := times[..|times| - 1];
      assert Chronological(init);
      CountPartition(init, now);
      assert forall j :: 0 <= j < |init| ==> init[j] == times[j];
    }
  }

  /** `bisect.bisect_right(a, x)`: the position after the last element not greater than `x`. */
  method BisectRight(a: seq<int>, x: int) returns (lo: nat)
    requires Chronological(a)
    ensures lo <= |a|
    ensures forall j :: 0 <= j < lo ==> a[j] <= x
    ensures forall j :: lo <= j < |a| ==> x < a[j]
    ensures lo == CountUpTo(a, x)
  {
    lo := 0;
    var hi := |a|;
    while lo < hi
      invariant 0 <= lo <= hi <= |a|
      invariant forall j :: 0 <= j < lo ==> a[j] <= x
      invariant forall j :: hi <= j < |a| ==> x < a[j]
      decreases hi - lo
    {
      var mid := (lo + hi) / 2;
      if x < a[mid] {
        hi := mid;
      } else {
        lo := mid + 1;
      }
    }
    CountPartition(a, x);
    PartitionUnique(a, x, lo, CountUpTo(a, x));
  }

  /** A table has one split point between the instants not after `x` and those after it. */
  lemma PartitionUnique(a: seq<int>, x: int, i: nat, k: nat)
    requires i <= |a| && k <= |a|
    requires forall j :: 0 <= j < |a| ==> (a[j] <= x <==> j < i)
    requires forall j :: 0 <= j < |a| ==> (a[j] <= x <==> j < k)
    ensures i == k
  {
    var m := if i < k then i else k;
    assert m < |a| ==> (a[m] <= x <==> m < i) && (a[m] <= x <==> m < k);
  }

  /** Which transitions `convert_tz` builds the rule from: none, or the pair switching DST on and off. */
  datatype Choice = Fixed | Pair(on: nat, off: nat)

  /**
   * `convert_tz`'s choice (lines 76-92): the first transition after `now`,
   * moved one on when that one turns DST off; no pair when the tables run
   * out or the closing transition lies beyond next year.
   */
  function Choose(times: seq<int>, infos: seq<TransitionInfo>, now: int): Choice
    requires |infos| == |times| && Civil.InRange(now)
    requires forall i :: 0 <= i < |times| ==> Civil.InRange(times[i])
  {
    var idx := CountUpTo(times, now);
    if idx >= |times| then Fixed
    else
      var on := if infos[idx].dstOffset == 0 then idx + 1 else idx;
      if on + 1 >= |times| then Fixed
      else
        assert Civil.InRange(times[on + 1]);
        if Civil.YearOf(times[on + 1]) > Civil.YearOf(now) + 1 then Fixed
        else Pair(on, on + 1)
  }

  /** The DST form: standard name and offset, then `DstPart`. */
  function DstString(on: TransitionInfo, off: TransitionInfo, startRule: string, endRule: string): string
  {
    NonDst(off) + DstPart(on, startRule, endRule)
  }

  /**
   * `tzext`: the DST name and offset (written as `NonDst` writes the standard
   * ones), then the start and end rules, separated by commas.
   */
  function DstPart(on: TransitionInfo, startRule: string, endRule: string): string
  {
    NonDst(on) + "," + startRule + "," + endRule
  }

  /**
   * The string `convert_tz` returns for `zone` at local time `now`; `current`
   * is the record pytz reports for `now`, which the fixed form falls back on.
   */
  function Synthesize(zone: Zone, now: int, current: TransitionInfo): Result<string, TzError>
    requires WellFormed(zone) && Civil.InRange(now)
  {
    match zone
    case StaticZone(info) => Ok(NonDst(info))
    case DstZone(times, infos) =>
      match Choose(times, infos, now)
      case Fixed => Ok(NonDst(current))
      case Pair(on, off) => PairForm(infos[on], infos[off], times[on], times[off])
  }

  /**
   * Lines 94-108: DST begins at the `on` transition, given in standard
   * (`off`) local time, and ends at the `off` one, given in daylight (`on`)
   * local time.
   */
  function PairForm(on: TransitionInfo, off: TransitionInfo, beginsUtc: int, endsUtc: int): Result<string, TzError>
  {
    LocalPairForm(on, off, beginsUtc + off.utcOffset, endsUtc + on.utcOffset)
  }

  /** The DST form for the local instants DST begins and ends at, when `datetime` can hold them. */
  function LocalPairForm(on: TransitionInfo, off: TransitionInfo, begins: int, ends: int): Result<string, TzError>
  {
    if !Civil.InRange(begins) || !Civil.InRange(ends) then Err(DateOutOfRange)
    else Ok(DstString(on, off, DstRule(Civil.FromInstant(begins)), DstRule(Civil.FromInstant(ends))))
  }

  /** `convert_tz`'s index search (lines 76-92), its indices reassigned step by step through the guarded exits. */
  method SelectTransitions(times: seq<int>, infos: seq<TransitionInfo>, now: int) returns (choice: Choice)
    requires |infos| == |times| && Chronological(times) && Civil.InRange(now)
    requires forall i :: 0 <= i < |times| ==> Civil.InRange(times[i])
    ensures choice == Choose(times, infos, now)
  {
    // max(0, bisect_right(...)) is the index itself: it is never negative.
    var idx := BisectRight(times, now);
    if idx >= |times| {
      return Fixed;
    }
    var idx1, idx2 := idx, idx + 1;
    if infos[idx1].dstOffset == 0 {
      idx1, idx2 := idx + 1, idx + 2;
    }
    if idx2 >= |times| {
      return Fixed;
    }
    assert Civil.InRange(times[idx2]);
    if Civil.YearOf(times[idx2]) > Civil.YearOf(now) + 1 {
      return Fixed;
    }
    return Pair(idx1, idx2);
  }

  /** `convert_tz`: the fixed form for a zone without DST or without a usable pair, else the DST form. */
  method ConvertTz(zone: Zone, now: int, current: TransitionInfo) returns (r: Result<string, TzError>)
    requires WellFormed(zone) && Civil.InRange(now)
    ensures r == Synthesize(zone, now, current)
  {
    if zone.StaticZone? {
      return Ok(NonDst(zone.info));
    }
    var times, infos := zone.times, zone.infos;
    var choice := SelectTransitions(times, infos, now);
    if choice.Fixed? {
      return Ok(NonDst(current));
    }
    r := PairForm(infos[choice.on], infos[choice.off], times[choice.on], times[choice.off]);
  }

  /**
   * The pair chosen starts at the first transition after `now`, or at the one
   * after it when the first has no DST offset (that one is not checked again);
   * it ends at the transition following, no later than the year after `now`'s.
   */
  lemma ChosenPair(times: seq<int>, infos: seq<TransitionInfo>, now: int, on: nat, off: nat)
    requires |infos| == |times| && Chronological(times) && Civil.InRange(now)
    requires forall i :: 0 <= i < |times| ==> Civil.InRange(times[i])
    requires Choose(times, infos, now) == Pair(on, off)
    ensures off == on + 1 < |times|
    ensures now < times[on] && Civil.YearOf(times[off]) <= Civil.YearOf(now) + 1
    ensures forall j :: 0 <= j < on - 1 ==> times[j] <= now
    ensures on >= 1 && now < times[on - 1] ==> infos[on - 1].dstOffset == 0
    ensures infos[on].dstOffset == 0 ==> on >= 1 && now < times[on - 1]
  {
    CountPartition(times, now);
  }

  /**
   * With three transitions after `now`, none with a DST offset, the index is
   * moved past the first and the pair starts at a record without DST.
   */
  lemma ShiftedRecordNotChecked()
    ensures var infos := [TransitionInfo(0, 0, "A"), TransitionInfo(0, 0, "B"), TransitionInfo(0, 0, "C")];
      Choose([10, 20, 30], infos, 5) == Pair(1, 2) && infos[1].dstOffset == 0
  {
    var times := [10, 20, 30];
    assert CountUpTo(times, 5) == 0 by {
      assert times[..2][..1] == [10];
      assert times[..2] == [10, 20];
    }
    assert Civil.YearOf(30) == 1 && Civil.YearOf(5) == 1;
  }

  /** With at most one transition after `now` there is no pair, and the fixed form is used. */
  lemma FewAheadIsFixed(times: seq<int>, infos: seq<TransitionInfo>, now: int)
    requires |infos| == |times| && Chronological(times) && Civil.InRange(now)
    requires forall i :: 0 <= i < |times| ==> Civil.InRange(times[i])
    requires forall j :: 0 <= j < |times| - 1 ==> times[j] <= now
    ensures Choose(times, infos, now) == Fixed
  {
    CountPartition(times, now);
    if |times| >= 2 {
      assert times[|times| - 2] <= now;
    }
  }

  /**
   * What follows the name in a designation is the offset text, and it reads
   * back as the offset; `NonDst(info)` is the designation of `-info.utcOffset`.
   */
  lemma DesignationReadsBack(name: string, offset: int)
    requires offset >= 0 || offset <= -3600
    ensures Designation(name, offset)[|name|..] == FormatOffset(offset)
    ensures ReadOffset(Designation(name, offset)[|name|..]) == Some(offset)
  {
    assert Designation(name, offset)[|name|..] == FormatOffset(offset);
    FormatReadsBack(offset);
  }

  lemma RuleHasNoComma(rule: Rule)
    ensures ',' !in RuleText(rule)
  {
    NotInIntToString(rule.month, ',');
    NotInIntToString(rule.week, ',');
    NotInIntToString(rule.weekday, ',');
    OffsetSeparators(rule.time, ',');
  }

  /**
   * The DST form has three comma-separated pieces: both names with their
   * offsets, then the start rule and the end rule.
   */
  lemma DstPieces(on: TransitionInfo, off: TransitionInfo, startRule: string, endRule: string)
    requires ',' !in on.name && ',' !in off.name && ',' !in startRule && ',' !in endRule
    ensures Split(DstString(on, off, startRule, endRule), ',') == [NonDst(off) + NonDst(on), startRule, endRule]
  {
    DesignationNoComma(on.name, -on.utcOffset);
    DesignationNoComma(off.name, -off.utcOffset);
    CommaShape(NonDst(off), NonDst(on), startRule, endRule);
  }

  lemma DesignationNoComma(name: string, offset: int)
    requires ',' !in name
    ensures ',' !in Designation(name, offset)
  {
    OffsetSeparators(offset, ',');
  }

  /**
   * The DST form splits into the two names with their offsets and two rules,
   * which read back as the rules of the local times DST starts and ends at.
   */
  lemma RulePieces(on: TransitionInfo, off: TransitionInfo, begins: Civil.DateTime, ends: Civil.DateTime)
    requires ',' !in on.name && ',' !in off.name
    requires Civil.Valid(begins) && Civil.Valid(ends)
    ensures var pieces := Split(DstString(on, off, DstRule(begins), DstRule(ends)), ',');
      && |pieces| == 3 && pieces[0] == NonDst(off) + NonDst(on)
      && ReadRule(pieces[1]) == Some(RuleOf(begins)) && ReadRule(pieces[2]) == Some(RuleOf(ends))
  {
    RuleHasNoComma(RuleOf(begins));
    RuleHasNoComma(RuleOf(ends));
    DstPieces(on, off, DstRule(begins), DstRule(ends));
    RuleReadsBack(begins);
    RuleReadsBack(ends);
  }

  /**
   * `r` is the DST form for DST switching on at local instant `begins` and off
   * at `ends`: an error exactly when `datetime` cannot hold one of them, and
   * otherwise three comma pieces, the designations and the two rules.
   */
  ghost predicate DstFormOf(r: Result<string, TzError>, on: TransitionInfo, off: TransitionInfo, begins: int, ends: int)
  {
    && (r.Ok? <==> Civil.InRange(begins) && Civil.InRange(ends))
    && (r.Ok? ==>
          var pieces := Split(r.value, ',');
          && |pieces| == 3 && pieces[0] == NonDst(off) + NonDst(on)
          && ReadRule(pieces[1]) == Some(RuleOf(Civil.FromInstant(begins)))
          && ReadRule(pieces[2]) == Some(RuleOf(Civil.FromInstant(ends))))
  }

  /** The DST form for two local instants, as `RulePieces` reads it. */
  lemma LocalPairFormPieces(on: TransitionInfo, off: TransitionInfo, begins: int, ends: int)
    requires ',' !in on.name && ',' !in off.name
    ensures DstFormOf(LocalPairForm(on, off, begins, ends), on, off, begins, ends)
  {
    if Civil.InRange(begins) && Civil.InRange(ends) {
      RulePieces(on, off, Civil.FromInstant(begins), Civil.FromInstant(ends));
    }
  }

  lemma CommaShape(x: string, y: string, b: string, c: string)
    requires ',' !in x && ',' !in y && ',' !in b && ',' !in c
    ensures Split(x + (y + "," + b + "," + c), ',') == [x + y, b, c]
  {
    assert x + (y + "," + b + "," + c) == (x + y) + [','] + b + [','] + c;
    SplitThree(x + y, b, c, ',');
  }
}
