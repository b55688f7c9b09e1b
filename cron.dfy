/**
 * The cron field parser of the time component: one textual field expression
 * (or a list of integers given directly) becomes the sorted list of values
 * the field matches, or an error.
 */
module Cron {
  import opened Wrappers
  import opened Decimal

  /** One instance of the field validator: its name, its inclusive range and its alias table. */
  datatype FieldSpec = FieldSpec(name: string, min: int, max: int, aliases: map<string, int>) {
    predicate InRange(v: int) { min <= v <= max }
  }

  const MonthAliases: map<string, int> := map[
    "JAN" := 1, "FEB" := 2, "MAR" := 3, "APR" := 4, "MAY" := 5, "JUN" := 6,
    "JUL" := 7, "AUG" := 8, "SEP" := 9, "OCT" := 10, "NOV" := 11, "DEC" := 12]

  const WeekdayAliases: map<string, int> := map[
    "SUN" := 1, "MON" := 2, "TUE" := 3, "WED" := 4, "THU" := 5, "FRI" := 6, "SAT" := 7]

  const SecondsSpec := FieldSpec("seconds", 0, 60, map[])
  const MinutesSpec := FieldSpec("minutes", 0, 59, map[])
  const HoursSpec := FieldSpec("hours", 0, 23, map[])
  const DaysOfMonthSpec := FieldSpec("days of month", 1, 31, map[])
  const MonthsSpec := FieldSpec("months", 1, 12, MonthAliases)
  const DaysOfWeekSpec := FieldSpec("days of week", 1, 7, WeekdayAliases)

  /** Which number of an expression could not be read; each has its own message in the source. */
  datatype NumberRole = StepOffset | StepRepeat | RangeBound | SingleValue

  datatype CronError =
    | NotAnInteger(role: NumberRole, token: string)
    | TooManySlashes(part: string)
    | TooManyDashes(part: string)
      /** `range()` with step 0: a ValueError in the source, not a validation error. */
    | StepIsZero(part: string)
    | NotAnIntegerItem(field: string)
    | OutOfRange(field: string, value: int)
    | WrongPartCount(count: nat)

  /** `list(range(lo, hi))`. */
  function RangeList(lo: int, hi: int): (s: seq<int>)
    ensures |s| == if hi <= lo then 0 else hi - lo
    ensures forall i :: 0 <= i < |s| ==> s[i] == lo + i
    decreases hi - lo
  {
    if hi <= lo then [] else [lo] + RangeList(lo + 1, hi)
  }

  lemma RangeListMembers(lo: int, hi: int)
    ensures forall x :: x in RangeList(lo, hi) <==> lo <= x < hi
  {
    var s := RangeList(lo, hi);
    forall x | lo <= x < hi ensures x in s {
      assert s[x - lo] == x;
    }
  }

  lemma RangeListSorted(lo: int, hi: int)
    ensures StrictlySorted(RangeList(lo, hi))
  {
  }

  /** Python's `range(lo, hi)` as a set. */
  function Interval(lo: int, hi: int): (r: set<int>)
    ensures forall x :: x in r <==> lo <= x < hi
  {
    RangeListMembers(lo, hi);
    set x | x in RangeList(lo, hi)
  }

  /** Python's `range(start, stop, step)` as a set, for either sign of the step. */
  function StepRange(start: int, stop: int, step: int): (r: set<int>)
    requires step != 0
    ensures step > 0 ==> forall x :: x in r <==> start <= x < stop && (x - start) % step == 0
    ensures step < 0 ==> forall x :: x in r <==> stop < x <= start && (start - x) % (-step) == 0
  {
    if step > 0 then
      RangeListMembers(start, stop);
      set x | x in RangeList(start, stop) && (x - start) % step == 0
    else
      var lo, hi := stop + 1, start + 1;
      RangeListMembers(lo, hi);
      set x | x in RangeList(lo, hi) && (start - x) % (-step) == 0
  }

  /** The `n`-th term of the progression `start, start + step, ...`. */
  function Nth(start: int, step: int, n: nat): int { start + n * step }

  lemma MultipleMod(n: int, k: int)
    requires k > 0
    ensures (n * k) % k == 0
  {
    var q, r := (n * k) / k, (n * k) % k;
    assert k * (n - q) == r;
    if n - q >= 1 { assert false; }
    if n - q <= -1 { assert false; }
  }

  /** `x` lies between `start` and `top` a whole number of steps from `start`. */
  predicate OnStep(x: int, start: int, top: int, step: int)
    requires step > 0
  {
    start <= x <= top && (x - start) % step == 0
  }

  /**
   * A set holding the values from `start` to `top` a multiple of `step` away
   * from `start` holds exactly the terms of the progression up to `top`.
   */
  lemma ProgressionMembers(start: int, top: int, step: int, vs: set<int>)
    requires step > 0
    requires forall x :: x in vs <==> OnStep(x, start, top, step)
    ensures forall n: nat :: Nth(start, step, n) <= top ==> Nth(start, step, n) in vs
    ensures forall x :: x in vs ==> start <= x <= top && exists n: nat :: x == Nth(start, step, n)
  {
    forall n: nat | Nth(start, step, n) <= top
      ensures Nth(start, step, n) in vs
    {
      MultipleMod(n, step);
      assert n * step >= 0;
    }
    forall x | x in vs
      ensures exists n: nat :: x == Nth(start, step, n)
    {
      var n := (x - start) / step;
      assert x - start == step * n;
      assert n >= 0;
      assert x == Nth(start, step, n);
    }
  }

  /** `_parse_cron_int`: an alias is looked up first, then the token is read as an integer. */
  function ParseCronInt(token: string, aliases: map<string, int>, role: NumberRole): Result<int, CronError>
  {
    if token in aliases then Ok(aliases[token])
    else match ParseInt(token)
      case Some(v) => Ok(v)
      case None => Err(NotAnInteger(role, token))
  }

  /** `_parse_cron_part`: one comma-free part of a field expression. */
  function ParsePart(part: string, spec: FieldSpec): Result<set<int>, CronError>
  {
    if part == "*" || part == "?" then Ok(Interval(spec.min, spec.max + 1))
    else if '/' in part then ParseStep(part, spec)
    else if '-' in part then ParseRange(part, spec)
    else
      var v := ParseCronInt(part, spec.aliases, SingleValue);
      if v.Err? then Err(v.error) else Ok({v.value})
  }

  /** The `A/B` branch of `_parse_cron_part`. */
  function ParseStep(part: string, spec: FieldSpec): Result<set<int>, CronError>
    requires '/' in part
  {
    var data := Split(part, '/');
    if |data| > 2 then Err(TooManySlashes(part))
    else
      var offsetN := if data[0] == [] then Ok(0) else ParseCronInt(data[0], spec.aliases, StepOffset);
      StepOf(offsetN, ParseInt(data[1]), data[1], part, spec)
  }

  /**
   * The step branch once its two numbers are read: the offset's error first,
   * then the repeat's, then `range(offset, max + 1, repeat)`.
   */
  function StepOf(offsetN: Result<int, CronError>, repeatN: Option<int>, repeat: string, part: string, spec: FieldSpec)
    : (r: Result<set<int>, CronError>)
    ensures offsetN.Err? ==> r == Err(offsetN.error)
    ensures offsetN.Ok? && repeatN.None? ==> r == Err(NotAnInteger(StepRepeat, repeat))
    ensures offsetN.Ok? && repeatN == Some(0) ==> r == Err(StepIsZero(part))
    ensures offsetN.Ok? && repeatN.Some? && repeatN.value > 0 ==>
              r.Ok? && forall x :: x in r.value <==> OnStep(x, offsetN.value, spec.max, repeatN.value)
    ensures offsetN.Ok? && repeatN.Some? && repeatN.value < 0 ==>
              r.Ok? && forall x :: x in r.value <==> spec.max + 1 < x <= offsetN.value && (offsetN.value - x) % (-repeatN.value) == 0
  {
    if offsetN.Err? then Err(offsetN.error)
    else match repeatN
      case None => Err(NotAnInteger(StepRepeat, repeat))
      case Some(k) =>
        if k == 0 then Err(StepIsZero(part))
        else Ok(StepRange(offsetN.value, spec.max + 1, k))
  }

  /** The `A-B` branch of `_parse_cron_part`. */
  function ParseRange(part: string, spec: FieldSpec): Result<set<int>, CronError>
    requires '-' in part
  {
    var data := Split(part, '-');
    if |data| > 2 then Err(TooManyDashes(part))
    else RangeOf(ParseCronInt(data[0], spec.aliases, RangeBound), ParseCronInt(data[1], spec.aliases, RangeBound), spec)
  }

  /**
   * The range branch once its bounds are read: `begin..end` when they are in
   * order; otherwise, as written, `end..max` together with `min..begin`.
   */
  function RangeOf(beginN: Result<int, CronError>, endN: Result<int, CronError>, spec: FieldSpec): (r: Result<set<int>, CronError>)
    ensures beginN.Err? ==> r == Err(beginN.error)
    ensures beginN.Ok? && endN.Err? ==> r == Err(endN.error)
    ensures beginN.Ok? && endN.Ok? && beginN.value <= endN.value ==>
              r.Ok? && forall x :: x in r.value <==> beginN.value <= x <= endN.value
    ensures beginN.Ok? && endN.Ok? && endN.value < beginN.value ==>
              r.Ok? && forall x :: x in r.value <==> endN.value <= x <= spec.max || spec.min <= x <= beginN.value
  {
    if beginN.Err? then Err(beginN.error)
    else if endN.Err? then Err(endN.error)
    else if endN.value < beginN.value then
      Ok(Interval(endN.value, spec.max + 1) + Interval(spec.min, beginN.value + 1))
    else Ok(Interval(beginN.value, endN.value + 1))
  }

  /** A token that is no alias and holds a letter-like character is rejected. */
  lemma NonIntegerTokenRejected(token: string, aliases: map<string, int>, role: NumberRole, i: nat)
    requires token !in aliases
    requires i < |token| && !IsSpace(token[i]) && !IsDigit(token[i])
    requires token[i] != '+' && token[i] != '-' && token[i] != '_'
    ensures ParseCronInt(token, aliases, role) == Err(NotAnInteger(role, token))
  {
    ParseIntRejects(token, i);
  }

  /**
   * A token is rejected exactly when it is no alias and `int()` refuses it,
   * and the error then carries the token and its role.
   */
  lemma CronIntVerdict(token: string, aliases: map<string, int>, role: NumberRole)
    ensures ParseCronInt(token, aliases, role).Err? <==> token !in aliases && ParseInt(token).None?
    ensures ParseCronInt(token, aliases, role).Err? ==> ParseCronInt(token, aliases, role).error == NotAnInteger(role, token)
  {
  }

  /**
   * A range with a bound left out fails on that empty bound: `-B` always, and
   * `A-` once `A` is read.
   */
  lemma EmptyBoundRejected(b: string, spec: FieldSpec)
    requires "" !in spec.aliases
    requires '/' !in b && '-' !in b
    ensures ParsePart("-" + b, spec) == Err(NotAnInteger(RangeBound, ""))
    ensures ParseCronInt(b, spec.aliases, RangeBound).Ok? ==> ParsePart(b + "-", spec) == Err(NotAnInteger(RangeBound, ""))
  {
    EmptyBeginRejected(b, spec);
    EmptyEndRejected(b, spec);
  }

  lemma EmptyBeginRejected(b: string, spec: FieldSpec)
    requires "" !in spec.aliases
    requires '/' !in b && '-' !in b
    ensures ParsePart("-" + b, spec) == Err(NotAnInteger(RangeBound, ""))
  {
    assert "-" + b == "" + "-" + b;
    EmptyTokenRejected(spec.aliases, RangeBound);
    RangeIsBranch("", b, spec);
  }

  lemma EmptyEndRejected(b: string, spec: FieldSpec)
    requires "" !in spec.aliases
    requires '/' !in b && '-' !in b
    ensures ParseCronInt(b, spec.aliases, RangeBound).Ok? ==> ParsePart(b + "-", spec) == Err(NotAnInteger(RangeBound, ""))
  {
    assert b + "-" == b + "-" + "";
    EmptyTokenRejected(spec.aliases, RangeBound);
    RangeIsBranch(b, "", spec);
  }

  lemma EmptyTokenRejected(aliases: map<string, int>, role: NumberRole)
    requires "" !in aliases
    ensures ParseCronInt("", aliases, role) == Err(NotAnInteger(role, ""))
  {
    MalformedNumbers();
  }

  /**
   * A zero step: with the offset `*` the part fails on that offset, which is
   * no integer, before the step is looked at; `/0` and `N/0` reach `range()`
   * and its zero-step error.
   */
  lemma ZeroStepForms(n: int, spec: FieldSpec)
    requires "*" !in spec.aliases && IntToString(n) !in spec.aliases
    ensures ParsePart("*/0", spec) == Err(NotAnInteger(StepOffset, "*"))
    ensures ParsePart("/0", spec) == Err(StepIsZero("/0"))
    ensures ParsePart(IntToString(n) + "/0", spec) == Err(StepIsZero(IntToString(n) + "/0"))
  {
    assert "*/0" == "*" + "/" + "0";
    StarOffsetRejected("0", spec);
    EmptyOffsetZeroStep(spec);
    NumberOffsetZeroStep(n, spec);
  }

  /** The offset `*` is no integer, so a step with that offset is always rejected on it. */
  lemma StarOffsetRejected(b: string, spec: FieldSpec)
    requires "*" !in spec.aliases && '/' !in b
    ensures ParsePart("*" + "/" + b, spec) == Err(NotAnInteger(StepOffset, "*"))
  {
    StarIsNoInteger();
    StepIsBranch("*", b, spec);
  }

  lemma StarIsNoInteger()
    ensures ParseInt("*") == None
  {
    ParseIntRejects("*", 0);
  }

  lemma EmptyOffsetZeroStep(spec: FieldSpec)
    ensures ParsePart("/0", spec) == Err(StepIsZero("/0"))
  {
    assert "/0" == "" + "/" + "0";
    ZeroText();
    ZeroStep("", "0", spec);
  }

  lemma NumberOffsetZeroStep(n: int, spec: FieldSpec)
    requires IntToString(n) !in spec.aliases
    ensures ParsePart(IntToString(n) + "/0", spec) == Err(StepIsZero(IntToString(n) + "/0"))
  {
    assert IntToString(n) + "/0" == IntToString(n) + "/" + "0";
    ZeroText();
    NotInIntToString(n, '/');
    IntegerTokenAccepted(n, spec.aliases, StepOffset);
    ZeroStep(IntToString(n), "0", spec);
  }

  /**
   * A step whose offset is past the field's maximum matches nothing, and the
   * text branch accepts it as an empty list (`70/5` for minutes).
   */
  lemma EmptyStepAccepted(n: int, k: int, spec: FieldSpec, r: Result<seq<int>, CronError>)
    requires n > spec.max && k > 0 && IntToString(n) !in spec.aliases
    requires TextVerdict(IntToString(n) + "/" + IntToString(k), spec, r)
    ensures r == Ok([])
  {
    EmptyStepParts(n, k, spec);
    EmptyUnion(spec, r);
  }

  /** The text branch on an empty union accepts it as the empty list. */
  lemma EmptyUnion(spec: FieldSpec, r: Result<seq<int>, CronError>)
    requires UnionVerdict(Ok({}), spec, r)
    ensures r == Ok([])
  {
    NoMembersIsEmpty(r.value);
  }

  lemma NoMembersIsEmpty(s: seq<int>)
    requires forall x :: x !in s
    ensures s == []
  {
    if s != [] {
      var x := SomeMember(s);
      assert false;
    }
  }

  lemma SomeMember(s: seq<int>) returns (x: int)
    requires s != []
    ensures x in s
  {
    x := s[0];
  }

  lemma EmptyStepParts(n: int, k: int, spec: FieldSpec)
    requires n > spec.max && k > 0 && IntToString(n) !in spec.aliases
    ensures ParseParts(Split(IntToString(n) + "/" + IntToString(k), ','), spec) == Ok({})
  {
    var text := IntToString(n) + "/" + IntToString(k);
    StepTextIsOnePart(n, k);
    EmptyStepPart(n, k, spec);
    OneEmptyPart(text, spec);
  }

  lemma StepTextIsOnePart(n: int, k: int)
    ensures Split(IntToString(n) + "/" + IntToString(k), ',') == [IntToString(n) + "/" + IntToString(k)]
  {
    NotInIntToString(n, ',');
    NotInIntToString(k, ',');
    CharNotIn(IntToString(n), IntToString(k), '/', ',');
  }

  lemma OneEmptyPart(part: string, spec: FieldSpec)
    requires ParsePart(part, spec) == Ok({})
    ensures ParseParts([part], spec) == Ok({})
  {
    ParsePartsMeaning([part], spec);
    var parsed := ParseParts([part], spec);
    assert forall x :: x !in parsed.value;
    assert parsed.value == {};
  }

  lemma EmptyStepPart(n: int, k: int, spec: FieldSpec)
    requires n > spec.max && k > 0 && IntToString(n) !in spec.aliases
    ensures ParsePart(IntToString(n) + "/" + IntToString(k), spec) == Ok({})
  {
    NotInIntToString(n, '/');
    NotInIntToString(k, '/');
    ParseIntToString(k);
    IntegerTokenAccepted(n, spec.aliases, StepOffset);
    StepMembers(IntToString(n), IntToString(k), spec, n, k);
    var p := ParsePart(IntToString(n) + "/" + IntToString(k), spec);
    assert forall x :: x !in p.value;
    assert p.value == {};
  }

  /** A token that is no alias and is the decimal text of `n` reads as `n`. */
  lemma IntegerTokenAccepted(n: int, aliases: map<string, int>, role: NumberRole)
    requires IntToString(n) !in aliases
    ensures ParseCronInt(IntToString(n), aliases, role) == Ok(n)
  {
    ParseIntToString(n);
  }

  /** Aliases are matched exactly: the lower-case month name is no alias and no number. */
  lemma AliasesAreCaseSensitive()
    ensures ParseCronInt("JAN", MonthAliases, SingleValue) == Ok(1)
    ensures ParseCronInt("jan", MonthAliases, SingleValue) == Err(NotAnInteger(SingleValue, "jan"))
  {
    NonIntegerTokenRejected("jan", MonthAliases, SingleValue, 0);
  }

  /** `*` and `?` match every value of the field. */
  lemma AnyIsFullRange(part: string, spec: FieldSpec)
    requires part == "*" || part == "?"
    ensures ParsePart(part, spec).Ok?
    ensures forall x :: x in ParsePart(part, spec).value <==> spec.InRange(x)
  {
  }

  /** `A/B` (neither piece holding `/`) is decided by the step branch. */
  lemma StepIsBranch(a: string, b: string, spec: FieldSpec)
    requires '/' !in a && '/' !in b
    ensures ParsePart(a + "/" + b, spec) ==
              StepOf(if a == [] then Ok(0) else ParseCronInt(a, spec.aliases, StepOffset), ParseInt(b), b, a + "/" + b, spec)
  {
    SplitTwo(a, b, '/');
    var part := a + "/" + b;
    assert part != "*" && part != "?";
  }

  /**
   * `A/B` with a positive step yields `A, A+B, A+2B, ...` up to the field's
   * maximum; an empty `A` means 0.
   */
  lemma StepExpression(a: string, b: string, spec: FieldSpec, start: int, k: int)
    requires '/' !in a && '/' !in b
    requires if a == [] then start == 0 else ParseCronInt(a, spec.aliases, StepOffset) == Ok(start)
    requires ParseInt(b) == Some(k) && k > 0
    ensures ParsePart(a + "/" + b, spec).Ok?
    ensures forall n: nat :: Nth(start, k, n) <= spec.max ==> Nth(start, k, n) in ParsePart(a + "/" + b, spec).value
    ensures forall x :: x in ParsePart(a + "/" + b, spec).value ==>
              start <= x <= spec.max && exists n: nat :: x == Nth(start, k, n)
  {
    StepMembers(a, b, spec, start, k);
    ProgressionMembers(start, spec.max, k, ParsePart(a + "/" + b, spec).value);
  }

  lemma StepMembers(a: string, b: string, spec: FieldSpec, start: int, k: int)
    requires '/' !in a && '/' !in b
    requires if a == [] then start == 0 else ParseCronInt(a, spec.aliases, StepOffset) == Ok(start)
    requires ParseInt(b) == Some(k) && k > 0
    ensures ParsePart(a + "/" + b, spec).Ok?
    ensures forall x :: x in ParsePart(a + "/" + b, spec).value <==> OnStep(x, start, spec.max, k)
  {
    StepIsBranch(a, b, spec);
    var offsetN := if a == [] then Ok(0) else ParseCronInt(a, spec.aliases, StepOffset);
    assert offsetN == Ok(start);
  }

  /** A zero step is the source's ValueError from `range()`. */
  lemma ZeroStep(a: string, b: string, spec: FieldSpec)
    requires '/' !in a && '/' !in b
    requires a == [] || ParseCronInt(a, spec.aliases, StepOffset).Ok?
    requires ParseInt(b) == Some(0)
    ensures ParsePart(a + "/" + b, spec) == Err(StepIsZero(a + "/" + b))
  {
    StepIsBranch(a, b, spec);
  }

  lemma CharNotIn(a: string, b: string, sep: char, c: char)
    requires c !in a && c !in b && c != sep
    ensures c !in a + [sep] + b
  {
  }

  /** `A-B` (neither piece holding `/`) is decided by the range branch. */
  lemma RangeIsBranch(a: string, b: string, spec: FieldSpec)
    requires '/' !in a && '/' !in b && '-' !in a && '-' !in b
    ensures ParsePart(a + "-" + b, spec) ==
              RangeOf(ParseCronInt(a, spec.aliases, RangeBound), ParseCronInt(b, spec.aliases, RangeBound), spec)
  {
    SplitTwo(a, b, '-');
    CharNotIn(a, b, '-', '/');
    var part := a + "-" + b;
    assert part != "*" && part != "?";
  }

  /**
   * `A-B` yields `A..B` when `B >= A`; when `B < A` it yields, as written,
   * `B..max` together with `min..A`.
   */
  lemma RangeExpression(a: string, b: string, spec: FieldSpec, lo: int, hi: int)
    requires '/' !in a && '/' !in b && '-' !in a && '-' !in b
    requires ParseCronInt(a, spec.aliases, RangeBound) == Ok(lo)
    requires ParseCronInt(b, spec.aliases, RangeBound) == Ok(hi)
    ensures ParsePart(a + "-" + b, spec).Ok?
    ensures lo <= hi ==> forall x :: x in ParsePart(a + "-" + b, spec).value <==> lo <= x <= hi
    ensures hi < lo ==> forall x :: x in ParsePart(a + "-" + b, spec).value <==>
                                      (hi <= x <= spec.max || spec.min <= x <= lo)
  {
    RangeIsBranch(a, b, spec);
  }

  /**
   * `FRI-MON` for the days of week runs backwards, and as written it matches
   * the whole week, not just Friday to Monday.
   */
  lemma BackwardRangeCoversWeek()
    ensures ParsePart("FRI-MON", DaysOfWeekSpec).Ok?
    ensures forall x :: x in ParsePart("FRI-MON", DaysOfWeekSpec).value <==> 1 <= x <= 7
  {
    assert "FRI-MON" == "FRI" + "-" + "MON";
    RangeExpression("FRI", "MON", DaysOfWeekSpec, 6, 2);
  }

  /** More than one `/`, or (without `/`) more than one `-`, is an error. */
  lemma TooManySeparators(part: string, spec: FieldSpec)
    requires part != "*" && part != "?"
    ensures multiset(part)['/'] > 1 ==> ParsePart(part, spec) == Err(TooManySlashes(part))
    ensures '/' !in part && multiset(part)['-'] > 1 ==> ParsePart(part, spec) == Err(TooManyDashes(part))
  {
    SplitCount(part, '/');
    SplitCount(part, '-');
  }

  /** The union of a run of part results; the first error met stops it. */
  function UnionOf(results: seq<Result<set<int>, CronError>>): Result<set<int>, CronError>
  {
    if results == [] then Ok({})
    else match UnionOf(results[..|results| - 1])
      case Err(e) => Err(e)
      case Ok(acc) =>
        match results[|results| - 1]
        case Err(e) => Err(e)
        case Ok(vs) => Ok(acc + vs)
  }

  lemma {:induction false} UnionOfMeaning(results: seq<Result<set<int>, CronError>>)
    ensures UnionOf(results).Ok? <==> forall i :: 0 <= i < |results| ==> results[i].Ok?
    ensures UnionOf(results).Ok? ==>
              forall x :: x in UnionOf(results).value <==> exists i :: 0 <= i < |results| && x in results[i].value
    ensures UnionOf(results).Err? ==>
              exists i :: 0 <= i < |results| && results[i] == Err(UnionOf(results).error)
                && forall j :: 0 <= j < i ==> results[j].Ok?
  {
    if results != [] {
      var init := results[..|results| - 1];
      UnionOfMeaning(init);
      assert forall i :: 0 <= i < |init| ==> init[i] == results[i];
      var n := |results| - 1;
      if UnionOf(results).Ok? {
        forall x ensures x in UnionOf(results).value <==> exists i :: 0 <= i < |results| && x in results[i].value {
          if x in results[n].value {
            assert exists i :: 0 <= i < |results| && x in results[i].value;
          }
          if exists i :: 0 <= i < |results| && x in results[i].value {
            var i :| 0 <= i < |results| && x in results[i].value;
            if i < n {
              assert x in init[i].value;
            }
          }
        }
      }
    }
  }

  /** Once a prefix of the results holds an error, the union of the whole run is that error. */
  lemma {:induction false} UnionOfErrorSticks(results: seq<Result<set<int>, CronError>>, j: nat)
    requires j <= |results| && UnionOf(results[..j]).Err?
    ensures UnionOf(results) == UnionOf(results[..j])
  {
    if j < |results| {
      var init := results[..|results| - 1];
      assert init[..j] == results[..j];
      UnionOfErrorSticks(init, j);
    } else {
      assert results[..j] == results;
    }
  }

  /** The result of each comma part of a field expression, in order. */
  function PartResults(parts: seq<string>, spec: FieldSpec): (rs: seq<Result<set<int>, CronError>>)
    ensures |rs| == |parts| && forall i :: 0 <= i < |parts| ==> rs[i] == ParsePart(parts[i], spec)
  {
    seq(|parts|, i requires 0 <= i < |parts| => ParsePart(parts[i], spec))
  }

  /**
   * The loop `values |= _parse_cron_part(part, ...)` over the comma parts: the
   * parts' union when every part parses, otherwise the first part's error.
   */
  function ParseParts(parts: seq<string>, spec: FieldSpec): Result<set<int>, CronError>
  {
    UnionOf(PartResults(parts, spec))
  }

  /** The parts' union when every part parses; otherwise the error of the first part that fails. */
  lemma ParsePartsMeaning(parts: seq<string>, spec: FieldSpec)
    ensures ParseParts(parts, spec).Ok? <==> forall i :: 0 <= i < |parts| ==> ParsePart(parts[i], spec).Ok?
    ensures ParseParts(parts, spec).Ok? ==>
              forall x :: x in ParseParts(parts, spec).value <==>
                exists i :: 0 <= i < |parts| && x in ParsePart(parts[i], spec).value
    ensures ParseParts(parts, spec).Err? ==>
              exists i :: 0 <= i < |parts| && ParsePart(parts[i], spec) == Err(ParseParts(parts, spec).error)
                && forall j :: 0 <= j < i ==> ParsePart(parts[j], spec).Ok?
  {
    UnionOfMeaning(PartResults(parts, spec));
  }

  /** An element of a list given directly in the configuration. */
  datatype Item = IntItem(n: int) | NonIntItem

  /** A field value as the configuration gives it: text to parse, or a list to check. */
  datatype FieldInput = Text(text: string) | Items(items: seq<Item>)

  /** The error the element loop of the list branch raises, if any: the first bad element decides. */
  function FirstBadItem(items: seq<Item>, spec: FieldSpec): Option<CronError>
  {
    if items == [] then None
    else match items[0]
      case NonIntItem => Some(NotAnIntegerItem(spec.name))
      case IntItem(v) => if v < spec.min || v > spec.max then Some(OutOfRange(spec.name, v)) else FirstBadItem(items[1..], spec)
  }

  function IntsOf(items: seq<Item>): (xs: seq<int>)
    requires forall i :: 0 <= i < |items| ==> items[i].IntItem?
    ensures |xs| == |items| && forall i :: 0 <= i < |items| ==> xs[i] == items[i].n
  {
    if items == [] then [] else [items[0].n] + IntsOf(items[1..])
  }

  function AsItems(xs: seq<int>): (items: seq<Item>)
    ensures |items| == |xs| && forall i :: 0 <= i < |xs| ==> items[i] == IntItem(xs[i])
  {
    seq(|xs|, i requires 0 <= i < |xs| => IntItem(xs[i]))
  }

  /** The list check accepts a list of integers exactly when all are in range, and otherwise names one that is not. */
  lemma {:induction false} FirstBadInt(xs: seq<int>, spec: FieldSpec)
    ensures FirstBadItem(AsItems(xs), spec).None? <==> forall i :: 0 <= i < |xs| ==> spec.InRange(xs[i])
    ensures FirstBadItem(AsItems(xs), spec).Some? ==>
              var e := FirstBadItem(AsItems(xs), spec).value;
              e.OutOfRange? && e.field == spec.name && e.value in xs && !spec.InRange(e.value)
  {
    if xs != [] {
      assert AsItems(xs)[1..] == AsItems(xs[1..]);
      FirstBadInt(xs[1..], spec);
    }
  }

  predicate Sorted(s: seq<int>) { forall i, j :: 0 <= i < j < |s| ==> s[i] <= s[j] }
  predicate StrictlySorted(s: seq<int>) { forall i, j :: 0 <= i < j < |s| ==> s[i] < s[j] }
  predicate NoDuplicates(s: seq<int>) { forall i, j :: 0 <= i < j < |s| ==> s[i] != s[j] }

  function Insert(x: int, s: seq<int>): (r: seq<int>)
    requires Sorted(s)
    ensures Sorted(r) && multiset(r) == multiset(s) + multiset{x}
    ensures |r| == |s| + 1 && (r[0] == x || (s != [] && r[0] == s[0]))
  {
    if s == [] || x <= s[0] then [x] + s
    else
      var rest := Insert(x, s[1..]);
      assert s[0] <= rest[0];
      assert s == [s[0]] + s[1..];
      [s[0]] + rest
  }

  /** Python's `sorted()` on integers: the ascending permutation of the input. */
  function Sort(s: seq<int>): (r: seq<int>)
    ensures Sorted(r) && multiset(r) == multiset(s)
  {
    if s == [] then []
    else
      assert s == [s[0]] + s[1..];
      Insert(s[0], Sort(s[1..]))
  }

  lemma {:induction false} NoDuplicatesCount(s: seq<int>, x: int)
    requires NoDuplicates(s)
    ensures multiset(s)[x] <= 1
  {
    if s != [] {
      assert s == [s[0]] + s[1..];
      assert s[0] !in s[1..];
      NoDuplicatesCount(s[1..], x);
    }
  }

  /** A sorted permutation of a list without duplicates is strictly ascending. */
  lemma SortedDistinct(a: seq<int>, b: seq<int>)
    requires Sorted(a) && multiset(a) == multiset(b) && NoDuplicates(b)
    ensures StrictlySorted(a)
  {
    forall i, j | 0 <= i < j < |a| ensures a[i] < a[j] {
      if a[i] == a[j] {
        assert a == a[..i] + [a[i]] + a[i + 1..j] + [a[j]] + a[j + 1..];
        assert multiset(a)[a[i]] >= 2;
        NoDuplicatesCount(b, a[i]);
        assert false;
      }
    }
  }

  lemma HeadIn(s: seq<int>)
    requires s != []
    ensures s[0] in s
  {
  }

  /** Two strictly ascending lists with the same elements are the same list. */
  lemma {:induction false} StrictlySortedUnique(a: seq<int>, b: seq<int>)
    requires StrictlySorted(a) && StrictlySorted(b)
    requires forall x :: x in a <==> x in b
    ensures a == b
    decreases |a|
  {
    if a == [] {
      if b != [] {
        HeadIn(b);
        assert false;
      }
    } else {
      assert a[0] in a;
      assert b != [];
      assert b[0] in b;
      assert a[0] == b[0];
      forall x ensures x in a[1..] <==> x in b[1..] {
        assert x in a[1..] <==> x in a && x != a[0];
        assert x in b[1..] <==> x in b && x != b[0];
      }
      StrictlySortedUnique(a[1..], b[1..]);
    }
  }


  /** What the list branch promises: the first bad element's error, or the input sorted. */
  ghost predicate ListVerdict(items: seq<Item>, spec: FieldSpec, r: Result<seq<int>, CronError>) {
    match FirstBadItem(items, spec)
    case Some(e) => r == Err(e)
    case None =>
      && (forall i :: 0 <= i < |items| ==> items[i].IntItem?)
      && r.Ok? && Sorted(r.value) && multiset(r.value) == multiset(IntsOf(items))
  }

  /** A field expression that parses and whose values all lie in the field's range. */
  ghost predicate Accepted(text: string, spec: FieldSpec) {
    var parsed := ParseParts(Split(text, ','), spec);
    parsed.Ok? && forall v :: v in parsed.value ==> spec.InRange(v)
  }

  /**
   * What the text branch promises: the first parse error; or, when some value is
   * out of range, an error naming one of them; or else the union of the parts,
   * ascending and without duplicates.
   */
  ghost predicate TextVerdict(text: string, spec: FieldSpec, r: Result<seq<int>, CronError>) {
    UnionVerdict(ParseParts(Split(text, ','), spec), spec, r)
  }

  /** The verdict on a parsed union, as the text branch gives it. */
  ghost predicate UnionVerdict(parsed: Result<set<int>, CronError>, spec: FieldSpec, r: Result<seq<int>, CronError>) {
    match parsed
    case Err(e) => r == Err(e)
    case Ok(vs) =>
      if forall v :: v in vs ==> spec.InRange(v) then
        r.Ok? && StrictlySorted(r.value) && forall x :: x in r.value <==> x in vs
      else
        r.Err? && r.error.OutOfRange? && r.error.field == spec.name
        && r.error.value in vs && !spec.InRange(r.error.value)
  }

  /** The text branch accepts exactly the expressions that parse with every value in range. */
  lemma VerdictAccepts(text: string, spec: FieldSpec, r: Result<seq<int>, CronError>)
    requires TextVerdict(text, spec, r)
    ensures r.Ok? <==> Accepted(text, spec)
  {
  }

  /** `*` through the text branch is the whole range of the field, ascending. */
  lemma FullRangeVerdict(spec: FieldSpec, r: Result<seq<int>, CronError>)
    requires TextVerdict("*", spec, r)
    ensures r == Ok(RangeList(spec.min, spec.max + 1))
  {
    assert Split("*", ',') == ["*"];
    assert PartResults(["*"], spec) == [Ok(Interval(spec.min, spec.max + 1))];
    assert UnionOf(PartResults(["*"], spec)[..0]) == Ok({});
    RangeListMembers(spec.min, spec.max + 1);
    RangeListSorted(spec.min, spec.max + 1);
    StrictlySortedUnique(r.value, RangeList(spec.min, spec.max + 1));
  }

  lemma HasElement(s: set<int>)
    requires s != {}
    ensures exists x :: x in s
  {
    if forall y :: y !in s {
      assert false;
    }
  }

  /** `list(values)` for a set: its elements, each once, in an order the model does not fix. */
  method SetToList(values: set<int>) returns (xs: seq<int>)
    ensures NoDuplicates(xs) && forall x :: x in xs <==> x in values
  {
    xs := [];
    var rest := values;
    while rest != {}
      invariant rest <= values
      invariant forall x :: x in xs <==> x in values && x !in rest
      invariant NoDuplicates(xs)
      decreases rest
    {
      HasElement(rest);
      var x :| x in rest;
      xs := xs + [x];
      rest := rest - {x};
    }
  }

  /** Handing the parsed union, as a list, to the list branch gives the text branch's verdict. */
  lemma ListOfUnion(spec: FieldSpec, values: set<int>, xs: seq<int>, r: Result<seq<int>, CronError>)
    requires NoDuplicates(xs) && forall x :: x in xs <==> x in values
    requires ListVerdict(AsItems(xs), spec, r)
    ensures UnionVerdict(Ok(values), spec, r)
  {
    FirstBadInt(xs, spec);
    if r.Ok? {
      assert IntsOf(AsItems(xs)) == xs;
      SortedDistinct(r.value, xs);
      forall x ensures x in r.value <==> x in xs {
        assert x in r.value <==> x in multiset(r.value);
        assert x in xs <==> x in multiset(xs);
      }
      forall v | v in values ensures spec.InRange(v) {
        var i :| 0 <= i < |xs| && xs[i] == v;
      }
    }
  }

  /** The list branch of the field validator: every element checked in order, then sorted. */
  method ValidateList(items: seq<Item>, spec: FieldSpec) returns (r: Result<seq<int>, CronError>)
    ensures ListVerdict(items, spec, r)
  {
    var i := 0;
    while i < |items|
      invariant 0 <= i <= |items|
      invariant FirstBadItem(items, spec) == FirstBadItem(items[i..], spec)
      invariant forall j :: 0 <= j < i ==> items[j].IntItem?
    {
      match items[i]
      case NonIntItem =>
        return Err(NotAnIntegerItem(spec.name));
      case IntItem(v) =>
        if v < spec.min || v > spec.max {
          return Err(OutOfRange(spec.name, v));
        }
      assert items[i..][1..] == items[i + 1..];
      i := i + 1;
    }
    r := Ok(Sort(IntsOf(items)));
  }

  /**
   * The text branch of the field validator: the union of the comma parts, turned
   * into a list and handed to the list branch.
   */
  method ValidateText(text: string, spec: FieldSpec) returns (r: Result<seq<int>, CronError>)
    ensures TextVerdict(text, spec, r)
  {
    var parts := Split(text, ',');
    ghost var rs := PartResults(parts, spec);
    var values: set<int> := {};
    var i := 0;
    while i < |parts|
      invariant 0 <= i <= |parts|
      invariant UnionOf(rs[..i]) == Ok(values)
    {
      var p := ParsePart(parts[i], spec);
      assert rs[..i + 1][..i] == rs[..i];
      if p.Err? {
        UnionOfErrorSticks(rs, i + 1);
        return Err(p.error);
      }
      values := values + p.value;
      i := i + 1;
    }
    assert rs[..i] == rs;
    var xs := SetToList(values);
    r := ValidateList(AsItems(xs), spec);
    ListOfUnion(spec, values, xs, r);
  }

  /** The validator `cron_expression_validator` returns for one field. */
  method Validate(value: FieldInput, spec: FieldSpec) returns (r: Result<seq<int>, CronError>)
    ensures value.Items? ==> ListVerdict(value.items, spec, r)
    ensures value.Text? ==> TextVerdict(value.text, spec, r)
  {
    match value
    case Items(items) => r := ValidateList(items, spec);
    case Text(text) => r := ValidateText(text, spec);
  }
}
