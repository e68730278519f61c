/** Five-field cron expressions and the search for the next matching minute. */
module Cron {
  import opened Calendar
  import opened Common
  import opened Text

  // ---------------------------------------------------------------- text helpers

  predicate IsInt64(n: int) {
    -MAX_INT64 - 1 <= n <= MAX_INT64
  }

  /** The outcome of a call that may never return. */
  datatype Call<+T> = Returned(value: T) | Endless

  function WordLength(s: string): (n: nat)
    ensures n <= |s| && (s != [] && !IsBlank(s[0]) ==> n > 0)
  {
    if s == [] || IsBlank(s[0]) then 0 else 1 + WordLength(s[1..])
  }

  /** The words of `s` between blanks. */
  function Fields(s: string): seq<string>
    decreases |s|
  {
    if s == [] then []
    else if IsBlank(s[0]) then Fields(s[1..])
    else [s[..WordLength(s)]] + Fields(s[WordLength(s)..])
  }

  function Digits(s: string): (r: Option<nat>) {
    if s == [] then Some(0)
    else
      var init := Digits(s[..|s| - 1]);
      var c := s[|s| - 1];
      if init.Some? && '0' <= c <= '9' then Some(10 * init.value + (c as int - '0' as int)) else None
  }

  /** Decimal integers with an optional sign, within 64 bits. */
  function Atoi(s: string): (r: Option<int>)
    ensures r.Some? ==> IsInt64(r.value)
  {
    var signed := s != [] && (s[0] == '+' || s[0] == '-');
    var digits := if signed then s[1..] else s;
    if digits == [] then None
    else
      match Digits(digits)
      case None => None
      case Some(n) =>
        var m: int := n;
        var v := if signed && s[0] == '-' then -m else m;
        if IsInt64(v) then Some(v) else None
  }

  // ---------------------------------------------------------------- fields

  /** The step of a part: 1 without a slash, nothing when it is not a positive number. */
  function StepOf(part: string): (r: Option<int>)
    ensures r.Some? ==> r.value > 0
  {
    var slash := IndexOf(part, '/');
    if slash < 0 then Some(1)
    else
      match Atoi(part[slash + 1..])
      case Some(s) => if s <= 0 then None else Some(s)
      case None => None
  }

  function RangeOf(part: string): string {
    var slash := IndexOf(part, '/');
    if slash < 0 then part else part[..slash]
  }

  /** What a part stands for: every `step`-th number of a range, a single number, or nothing. */
  datatype Part = Nothing | Every(lo: int, hi: int, step: int) | Single(n: int)

  /** Ranges and single numbers are not clipped to the bounds of the field. */
  function Meaning(part: string, min: int, max: int): (p: Part)
    ensures p.Every? ==> p.step > 0
    ensures p.Every? && IsInt64(min) && IsInt64(max) ==> IsInt64(p.lo) && IsInt64(p.hi)
  {
    var r := RangeOf(part);
    var dash := IndexOf(r, '-');
    if StepOf(part).None? then Nothing
    else if r == "*" then Every(min, max, StepOf(part).value)
    else if dash >= 0 then
      match (Atoi(r[..dash]), Atoi(r[dash + 1..]))
      case (Some(s), Some(e)) => Every(s, e, StepOf(part).value)
      case _ => Nothing
    else
      match Atoi(r)
      case Some(n) => Single(n)
      case None => Nothing
  }

  predicate Allows(p: Part, v: int) {
    match p
    case Nothing => false
    case Every(lo, hi, step) => lo <= v <= hi && step > 0 && (v - lo) % step == 0
    case Single(n) => v == n
  }

  ghost predicate FieldAllows(field: string, min: int, max: int, v: int) {
    exists k :: 0 <= k < |Split(field, ',')| && Allows(Meaning(Split(field, ',')[k], min, max), v)
  }

  /** One of the first `n` parts allows the number. */
  ghost predicate SomeAllows(parts: seq<string>, n: nat, min: int, max: int, v: int)
    requires n <= |parts|
  {
    exists k :: 0 <= k < n && Allows(Meaning(parts[k], min, max), v)
  }

  lemma SomeAllowsMore(parts: seq<string>, n: nat, min: int, max: int)
    requires n < |parts|
    ensures forall v :: SomeAllows(parts, n + 1, min, max, v) <==>
                        SomeAllows(parts, n, min, max, v) || Allows(Meaning(parts[n], min, max), v)
  {
  }

  // ---------------------------------------------------------------- loops that do not end

  /** Adding one to a 64-bit counter. */
  function Wrapped(v: int): int {
    if v == MAX_INT64 then -MAX_INT64 - 1 else v + 1
  }

  function Counter(v: int, n: nat): int {
    if n == 0 then v else Wrapped(Counter(v, n - 1))
  }

  /** The loop over a 64-bit counter from `lo` comes to an end behind `hi`. */
  ghost predicate LoopEnds(lo: int, hi: int) {
    exists n: nat :: Counter(lo, n) > hi
  }

  lemma {:induction false} CounterIs(v: int, n: nat)
    requires IsInt64(v)
    ensures IsInt64(Counter(v, n))
    ensures v + n <= MAX_INT64 ==> Counter(v, n) == v + n
  {
    if n > 0 { CounterIs(v, n - 1); }
  }

  /** It does exactly when `hi` is not the largest integer. */
  lemma LoopEndsExactly(lo: int, hi: int)
    requires IsInt64(lo) && IsInt64(hi)
    ensures LoopEnds(lo, hi) <==> hi < MAX_INT64
  {
    if hi < MAX_INT64 {
      var n: nat := if lo > hi then 0 else hi + 1 - lo;
      CounterIs(lo, n);
      assert Counter(lo, n) > hi;
    }
    if LoopEnds(lo, hi) {
      var n: nat :| Counter(lo, n) > hi;
      CounterIs(lo, n);
    }
  }

  /** The numbers of a part are walked up to the largest integer. */
  predicate NeverEnds(p: Part) {
    p.Every? && p.hi == MAX_INT64
  }

  /** That is when the loop over them does not end. */
  lemma NeverEndsExactly(part: string, min: int, max: int)
    requires IsInt64(min) && IsInt64(max)
    ensures var p := Meaning(part, min, max);
            NeverEnds(p) <==> p.Every? && !LoopEnds(p.lo, p.hi)
  {
    var p := Meaning(part, min, max);
    if p.Every? { LoopEndsExactly(p.lo, p.hi); }
  }

  ghost predicate SomeEndless(parts: seq<string>, n: nat, min: int, max: int)
    requires n <= |parts|
  {
    exists k :: 0 <= k < n && NeverEnds(Meaning(parts[k], min, max))
  }

  lemma SomeEndlessMore(parts: seq<string>, n: nat, min: int, max: int)
    requires n < |parts| && !SomeEndless(parts, n, min, max) && !NeverEnds(Meaning(parts[n], min, max))
    ensures !SomeEndless(parts, n + 1, min, max)
  {
  }

  lemma EndlessPart(parts: seq<string>, k: nat, min: int, max: int)
    requires k < |parts| && NeverEnds(Meaning(parts[k], min, max))
    ensures SomeEndless(parts, |parts|, min, max)
  {
  }

  ghost predicate FieldEndless(field: string, min: int, max: int) {
    exists k :: 0 <= k < |Split(field, ',')| && NeverEnds(Meaning(Split(field, ',')[k], min, max))
  }

  // ---------------------------------------------------------------- parsing

  /** The numbers `lo`, `lo + step`, ... up to `hi`, found by testing each number in between. */
  method Stepped(lo: int, hi: int, step: int) returns (values: Call<set<int>>)
    requires step > 0 && IsInt64(lo) && IsInt64(hi)
    ensures values.Endless? <==> !LoopEnds(lo, hi)
    ensures values.Returned? ==> forall v :: v in values.value <==> Allows(Every(lo, hi, step), v)
  {
    LoopEndsExactly(lo, hi);
    if hi == MAX_INT64 {
      return Endless;
    }
    var found: set<int> := {};
    var v := lo;
    while v <= hi
      invariant IsInt64(v) && lo <= v
      invariant forall x :: x in found <==> x < v && Allows(Every(lo, hi, step), x)
      decreases hi - v
    {
      if (v - lo) % step == 0 {
        found := found + {v};
      }
      v := Wrapped(v);
    }
    values := Returned(found);
  }

  method ParsePart(part: string, min: int, max: int) returns (values: Call<set<int>>)
    requires IsInt64(min) && IsInt64(max)
    ensures values.Endless? <==> NeverEnds(Meaning(part, min, max))
    ensures values.Returned? ==> forall v :: v in values.value <==> Allows(Meaning(part, min, max), v)
  {
    var rangePart := part;
    var step := 1;
    var idx := IndexOf(part, '/');
    if idx >= 0 {
      rangePart := part[..idx];
      var s := Atoi(part[idx + 1..]);
      if s.None? || s.value <= 0 {
        assert Meaning(part, min, max) == Nothing;
        return Returned({});
      }
      step := s.value;
    }
    assert rangePart == RangeOf(part) && StepOf(part) == Some(step);
    values := ParseRange(part, rangePart, step, min, max);
  }

  method ParseRange(ghost part: string, rangePart: string, step: int, min: int, max: int)
    returns (values: Call<set<int>>)
    requires IsInt64(min) && IsInt64(max)
    requires step > 0 && rangePart == RangeOf(part) && StepOf(part) == Some(step)
    ensures values.Endless? <==> NeverEnds(Meaning(part, min, max))
    ensures values.Returned? ==> forall v :: v in values.value <==> Allows(Meaning(part, min, max), v)
  {
    var dash := IndexOf(rangePart, '-');
    if rangePart == "*" {
      assert Meaning(part, min, max) == Every(min, max, step);
      NeverEndsExactly(part, min, max);
      values := Stepped(min, max, step);
    } else if dash >= 0 {
      var s, e := Atoi(rangePart[..dash]), Atoi(rangePart[dash + 1..]);
      if s.None? || e.None? {
        assert Meaning(part, min, max) == Nothing;
        return Returned({});
      }
      assert Meaning(part, min, max) == Every(s.value, e.value, step);
      NeverEndsExactly(part, min, max);
      values := Stepped(s.value, e.value, step);
    } else {
      var num := Atoi(rangePart);
      assert Meaning(part, min, max) == if num.Some? then Single(num.value) else Nothing;
      values := Returned(if num.Some? then {num.value} else {});
    }
  }

  method ParseField(field: string, min: int, max: int) returns (values: Call<set<int>>)
    requires IsInt64(min) && IsInt64(max)
    ensures values.Endless? <==> FieldEndless(field, min, max)
    ensures values.Returned? ==> forall v :: v in values.value <==> FieldAllows(field, min, max, v)
  {
    values := ParseParts(Split(field, ','), min, max);
  }

  /** The parts one after the other; a part that is walked for ever is the last. */
  method ParseParts(parts: seq<string>, min: int, max: int) returns (values: Call<set<int>>)
    requires IsInt64(min) && IsInt64(max)
    ensures values.Endless? <==> SomeEndless(parts, |parts|, min, max)
    ensures values.Returned? ==> forall v :: v in values.value <==> SomeAllows(parts, |parts|, min, max, v)
  {
    var found: set<int> := {};
    for k := 0 to |parts|
      invariant !SomeEndless(parts, k, min, max)
      invariant forall v :: v in found <==> SomeAllows(parts, k, min, max, v)
    {
      var more := ParsePart(parts[k], min, max);
      if more.Endless? {
        EndlessPart(parts, k, min, max);
        return Endless;
      }
      SomeAllowsMore(parts, k, min, max);
      SomeEndlessMore(parts, k, min, max);
      found := found + more.value;
    }
    values := Returned(found);
  }

  // ---------------------------------------------------------------- fields and their bounds

  /** Nothing, or only numbers of the bounds. */
  predicate WithinBounds(p: Part, min: int, max: int) {
    match p
    case Nothing => true
    case Every(lo, hi, step) => lo > hi || (step > 0 && min <= lo && hi - (hi - lo) % step <= max)
    case Single(n) => min <= n <= max
  }

  /** The greatest multiple of `step` up to `d`. */
  lemma LastMultiple(d: int, step: int)
    requires step > 0 && d >= 0
    ensures 0 <= d - d % step && (d - d % step) % step == 0
  {
    var q := d / step;
    assert d == step * q + d % step && step * q == q * step;
    MultipleHasNoRest(q, step);
    ProductOrder(0, q, step);
  }

  lemma NoGreaterMultiple(m: int, d: int, step: int)
    requires step > 0 && 0 <= m <= d && m % step == 0
    ensures m <= d - d % step
  {
    var p, q := m / step, d / step;
    assert m == step * p && step * p == p * step;
    assert d == step * q + d % step && step * q == q * step;
    assert (q + 1) * step == q * step + step;
    if p > q {
      ProductOrder(q + 1, p, step);
    } else {
      ProductOrder(p, q, step);
    }
  }

  lemma LastStep(lo: int, hi: int, step: int)
    requires lo <= hi && step > 0
    ensures Allows(Every(lo, hi, step), lo) && Allows(Every(lo, hi, step), hi - (hi - lo) % step)
    ensures forall v | Allows(Every(lo, hi, step), v) :: lo <= v <= hi - (hi - lo) % step
  {
    LastMultiple(hi - lo, step);
    forall v | Allows(Every(lo, hi, step), v)
      ensures v <= hi - (hi - lo) % step
    {
      NoGreaterMultiple(v - lo, hi - lo, step);
    }
  }

  lemma PartStaysInBounds(p: Part, min: int, max: int)
    requires p.Every? ==> p.step > 0
    ensures (forall v | Allows(p, v) :: min <= v <= max) <==> WithinBounds(p, min, max)
  {
    match p
    case Nothing =>
    case Single(n) => assert Allows(p, n);
    case Every(lo, hi, step) =>
      if lo <= hi { LastStep(lo, hi, step); }
  }

  ghost predicate PartWithin(field: string, k: int, min: int, max: int) {
    0 <= k < |Split(field, ',')| ==> WithinBounds(Meaning(Split(field, ',')[k], min, max), min, max)
  }

  lemma PartOfBoundedField(field: string, k: int, min: int, max: int)
    requires forall v | FieldAllows(field, min, max, v) :: min <= v <= max
    ensures PartWithin(field, k, min, max)
  {
    if 0 <= k < |Split(field, ',')| {
      var p := Meaning(Split(field, ',')[k], min, max);
      forall v | Allows(p, v)
        ensures min <= v <= max
      {
        assert FieldAllows(field, min, max, v);
      }
      PartStaysInBounds(p, min, max);
    }
  }

  lemma NumberOfBoundedParts(field: string, min: int, max: int, v: int)
    requires forall k :: PartWithin(field, k, min, max)
    requires FieldAllows(field, min, max, v)
    ensures min <= v <= max
  {
    var k :| 0 <= k < |Split(field, ',')| && Allows(Meaning(Split(field, ',')[k], min, max), v);
    assert PartWithin(field, k, min, max);
    PartStaysInBounds(Meaning(Split(field, ',')[k], min, max), min, max);
  }

  /** A field allows only numbers of its bounds exactly when each of its parts stands for nothing
      or for numbers of the bounds: nothing is clipped. */
  lemma FieldStaysInBoundsExactly(field: string, min: int, max: int)
    ensures (forall v | FieldAllows(field, min, max, v) :: min <= v <= max)
            <==> forall k :: PartWithin(field, k, min, max)
  {
    if forall v | FieldAllows(field, min, max, v) :: min <= v <= max {
      forall k
        ensures PartWithin(field, k, min, max)
      {
        PartOfBoundedField(field, k, min, max);
      }
    }
    if forall k :: PartWithin(field, k, min, max) {
      forall v | FieldAllows(field, min, max, v)
        ensures min <= v <= max
      {
        NumberOfBoundedParts(field, min, max, v);
      }
    }
  }

  // Fields written as numbers and ranges.

  lemma {:induction false} DigitsOfNatText(n: nat)
    ensures Digits(NatText(n)) == Some(n)
  {
    var s := NatText(n);
    if n >= 10 {
      DigitsOfNatText(n / 10);
      assert s[..|s| - 1] == NatText(n / 10);
      assert n == 10 * (n / 10) + n % 10;
    } else {
      assert s[..|s| - 1] == [];
    }
  }

  lemma AtoiOfNatText(n: nat)
    requires n <= MAX_INT64
    ensures Atoi(NatText(n)) == Some(n)
  {
    DigitsOfNatText(n);
    assert '0' <= NatText(n)[0] <= '9';
  }

  lemma PlainField(field: string, min: int, max: int, v: int)
    requires ',' !in field && '/' !in field
    ensures Split(field, ',') == [field]
    ensures FieldAllows(field, min, max, v) <==> Allows(Meaning(field, min, max), v)
    ensures FieldEndless(field, min, max) <==> NeverEnds(Meaning(field, min, max))
    ensures StepOf(field) == Some(1) && RangeOf(field) == field
  {
    assert IndexOf(field, ',') == -1 && IndexOf(field, '/') == -1;
    assert Split(field, ',')[0] == field;
  }

  lemma NatTextIsPlain(n: nat)
    ensures forall c | c in NatText(n) :: '0' <= c <= '9'
  {
  }

  /** A field that is a number allows that number, within the bounds or not. */
  lemma NumberField(n: nat, min: int, max: int, v: int)
    requires n <= MAX_INT64
    ensures FieldAllows(NatText(n), min, max, v) <==> v == n
    ensures Meaning(NatText(n), min, max) == Single(n)
  {
    var s := NatText(n);
    NatTextIsPlain(n);
    PlainField(s, min, max, v);
    AtoiOfNatText(n);
    assert IndexOf(s, '-') == -1;
    assert '0' <= s[0] <= '9' && s != "*";
    assert Meaning(s, min, max) == Single(n);
  }

  /** Minute 75 is allowed by the field that names it. */
  lemma SeventyFiveIsAllowed()
    ensures NatText(75) == "75" && FieldAllows("75", 0, 59, 75)
  {
    assert NatText(7) == "7";
    NumberField(75, 0, 59, 75);
  }

  lemma DashSplits(a: string, b: string)
    requires '-' !in a
    ensures var s := a + "-" + b;
            IndexOf(s, '-') == |a| && s[..|a|] == a && s[|a| + 1..] == b
  {
    var s := a + "-" + b;
    assert s[|a|] == '-' && forall k | 0 <= k < |a| :: s[k] == a[k];
  }

  lemma RangeChars(a: nat, b: nat)
    ensures forall c | c in NatText(a) + "-" + NatText(b) :: c == '-' || '0' <= c <= '9'
  {
    NatTextIsPlain(a);
    NatTextIsPlain(b);
  }

  lemma RangeMeans(a: nat, b: nat, min: int, max: int)
    requires a <= MAX_INT64 && b <= MAX_INT64
    ensures Meaning(NatText(a) + "-" + NatText(b), min, max) == Every(a, b, 1)
  {
    var s := NatText(a) + "-" + NatText(b);
    RangeChars(a, b);
    PlainField(s, min, max, 0);
    AtoiOfNatText(a);
    AtoiOfNatText(b);
    DashSplits(NatText(a), NatText(b));
    assert |s| > 1 && s != "*";
  }

  /** The loop over a range does not end exactly when it reaches up to the largest integer. */
  lemma RangeIsEndlessExactly(a: nat, b: nat, min: int, max: int)
    requires a <= MAX_INT64 && b <= MAX_INT64
    ensures FieldEndless(NatText(a) + "-" + NatText(b), min, max) <==> b == MAX_INT64
  {
    RangeMeans(a, b, min, max);
    RangeChars(a, b);
    PlainField(NatText(a) + "-" + NatText(b), min, max, 0);
    LoopEndsExactly(a, b);
  }

  // ---------------------------------------------------------------- the next run

  /** Times are whole minutes since the start of year 1, as the time package truncates them. */
  const MINUTES_PER_DAY := 1440
  const HORIZON := 525600
  const NANOS_PER_MINUTE := 60_000_000_000

  /** What the five fields allow. */
  datatype Schedule = Schedule(minute: int -> bool, hour: int -> bool, dom: int -> bool, month: int -> bool,
                               dow: int -> bool)

  ghost function ScheduleOf(cron: string): Schedule {
    var f := Fields(cron);
    if |f| != 5 then Schedule(v => false, v => false, v => false, v => false, v => false)
    else
      Schedule(v => FieldAllows(f[0], 0, 59, v), v => FieldAllows(f[1], 0, 23, v), v => FieldAllows(f[2], 1, 31, v),
               v => FieldAllows(f[3], 1, 12, v), v => FieldAllows(f[4], 0, 6, v))
  }

  /** The day fields allow day `n`; all of them must. */
  ghost predicate DayAllowed(s: Schedule, n: int) {
    s.dom(DateOf(n).day) && s.month(DateOf(n).month) && s.dow(Weekday(n))
  }

  /** Minute `t` matches all five fields. */
  ghost predicate DueAt(s: Schedule, t: int) {
    s.minute(t % 60) && s.hour(t / 60 % 24) && DayAllowed(s, t / MINUTES_PER_DAY)
  }

  /** The minutes an expression names. */
  ghost function DueMinutes(s: Schedule): int -> bool {
    t => DueAt(s, t)
  }

  /** `next` is the first due minute within the horizon after minute `base`, if there is one. */
  ghost predicate IsNext(due: int -> bool, base: int, next: Option<int>) {
    match next
    case Some(t) => base < t <= base + HORIZON && due(t) && forall u | base < u < t :: !due(u)
    case None => forall u | base < u <= base + HORIZON :: !due(u)
  }

  /** The value sets hold what the fields allow. */
  ghost predicate Parsed(s: Schedule, minutes: set<int>, hours: set<int>, dom: set<int>, months: set<int>,
                         dow: set<int>) {
    && (forall v :: v in minutes <==> s.minute(v))
    && (forall v :: v in hours <==> s.hour(v))
    && (forall v :: v in dom <==> s.dom(v))
    && (forall v :: v in months <==> s.month(v))
    && (forall v :: v in dow <==> s.dow(v))
  }

  /** Some field holds a range that is walked for ever. */
  ghost predicate CronEndless(cron: string) {
    var f := Fields(cron);
    |f| == 5 && (FieldEndless(f[0], 0, 59) || FieldEndless(f[1], 0, 23) || FieldEndless(f[2], 1, 31)
                 || FieldEndless(f[3], 1, 12) || FieldEndless(f[4], 0, 6))
  }

  /** The instant is given in nanoseconds, the result as a whole minute. */
  method ComputeNextRun(cron: string, from: int) returns (next: Call<Option<int>>)
    ensures next.Endless? <==> CronEndless(cron)
    ensures next.Returned? ==> IsNext(DueMinutes(ScheduleOf(cron)), from / NANOS_PER_MINUTE, next.value)
  {
    var fields := Fields(cron);
    if |fields| != 5 {
      return Returned(None);
    }
    var minutes := ParseField(fields[0], 0, 59);
    if minutes.Endless? { return Endless; }
    var hours := ParseField(fields[1], 0, 23);
    if hours.Endless? { return Endless; }
    var dom := ParseField(fields[2], 1, 31);
    if dom.Endless? { return Endless; }
    var months := ParseField(fields[3], 1, 12);
    if months.Endless? { return Endless; }
    var dow := ParseField(fields[4], 0, 6);
    if dow.Endless? { return Endless; }
    var found := Search(ScheduleOf(cron), minutes.value, hours.value, dom.value, months.value, dow.value,
                        from / NANOS_PER_MINUTE);
    next := Returned(found);
  }

  /** Minute by minute from the one after `base`. */
  method Search(ghost s: Schedule, minutes: set<int>, hours: set<int>, dom: set<int>, months: set<int>, dow: set<int>,
                base: int)
    returns (next: Option<int>)
    requires Parsed(s, minutes, hours, dom, months, dow)
    ensures IsNext(DueMinutes(s), base, next)
  {
    if |minutes| == 0 || |hours| == 0 || |dom| == 0 || |months| == 0 || |dow| == 0 {
      return None;
    }
    ghost var due := DueMinutes(s);
    var t := base + 1;
    for i := 0 to HORIZON
      invariant t == base + 1 + i
      invariant forall u | base < u < t :: !due(u)
    {
      var hit := IsHit(s, minutes, hours, dom, months, dow, t);
      if hit {
        return Some(t);
      }
      t := t + 1;
    }
    return None;
  }

  method IsHit(ghost s: Schedule, minutes: set<int>, hours: set<int>, dom: set<int>, months: set<int>, dow: set<int>,
               t: int)
    returns (hit: bool)
    requires Parsed(s, minutes, hours, dom, months, dow)
    ensures hit == DueMinutes(s)(t)
  {
    var date := DateOf(t / MINUTES_PER_DAY);
    hit := t % 60 in minutes && t / 60 % 24 in hours && date.day in dom && date.month in months
           && Weekday(t / MINUTES_PER_DAY) in dow;
  }

  ghost predicate InHorizon(base: int, t: int) {
    base < t <= base + HORIZON
  }

  /** Validity of an expression at a minute: a run is found from there. */
  ghost predicate ValidAt(cron: string, base: int) {
    exists t :: InHorizon(base, t) && DueMinutes(ScheduleOf(cron))(t)
  }

  method ValidateCron(cron: string, now: int) returns (ok: Call<bool>)
    ensures ok.Endless? <==> CronEndless(cron)
    ensures ok.Returned? ==> (ok.value <==> ValidAt(cron, now / NANOS_PER_MINUTE))
  {
    var next := ComputeNextRun(cron, now);
    if next.Endless? {
      return Endless;
    }
    NextExists(DueMinutes(ScheduleOf(cron)), now / NANOS_PER_MINUTE, next.value);
    ok := Returned(next.value.Some?);
  }

  lemma NextExists(due: int -> bool, base: int, next: Option<int>)
    requires IsNext(due, base, next)
    ensures next.Some? <==> exists t :: InHorizon(base, t) && due(t)
    ensures forall t | InHorizon(base, t) && due(t) :: next.Some? && next.value <= t
  {
    if next.Some? {
      assert InHorizon(base, next.value);
    }
  }

  lemma NextIsUnique(due: int -> bool, base: int, a: Option<int>, b: Option<int>)
    requires IsNext(due, base, a) && IsNext(due, base, b)
    ensures a == b
  {
  }

  /** A later start never gives an earlier run, and gives the same one until it is reached. */
  lemma NextIsMonotone(due: int -> bool, base: int, later: int, a: Option<int>, b: Option<int>)
    requires base <= later && IsNext(due, base, a) && IsNext(due, later, b)
    ensures a.Some? && b.Some? ==> a.value <= b.value && (a.value == b.value <==> later < a.value)
    ensures a.Some? && later < a.value ==> b == a
    ensures a.None? && b.Some? ==> b.value > base + HORIZON
  {
    if a.Some? && later < a.value {
      NextIsUnique(due, later, a, b);
    }
  }

  ghost function LastOf(base: int, runs: seq<int>): int {
    if runs == [] then base else runs[|runs| - 1]
  }

  /** Each run is the next one after the run before it. */
  ghost predicate IsSchedule(due: int -> bool, base: int, runs: seq<int>) {
    runs != [] ==>
      var init := runs[..|runs| - 1];
      IsSchedule(due, base, init) && IsNext(due, LastOf(base, init), Some(runs[|runs| - 1]))
  }

  /** Following the schedule visits every due minute in order, none skipped and none twice. */
  lemma {:induction false} ScheduleVisitsAll(due: int -> bool, base: int, runs: seq<int>)
    requires IsSchedule(due, base, runs)
    ensures base <= LastOf(base, runs)
    ensures forall j, k | 0 <= j < k < |runs| :: runs[j] < runs[k]
    ensures forall t :: base < t <= LastOf(base, runs) && due(t) <==> t in runs
  {
    if runs != [] {
      var init, last := runs[..|runs| - 1], runs[|runs| - 1];
      ScheduleVisitsAll(due, base, init);
      assert runs == init + [last];
      forall j | 0 <= j < |init|
        ensures runs[j] < last
      {
        assert init[j] in init;
      }
    }
  }

  /** The schedule ends only before a gap longer than the horizon. */
  lemma ScheduleEndsAtGap(due: int -> bool, base: int, runs: seq<int>)
    requires IsSchedule(due, base, runs) && IsNext(due, LastOf(base, runs), None)
    ensures forall t | base < t <= LastOf(base, runs) + HORIZON :: due(t) <==> t in runs
  {
    ScheduleVisitsAll(due, base, runs);
  }

  // ---------------------------------------------------------------- when a run exists

  ghost predicate AllowsAll(allowed: int -> bool, min: int, max: int) {
    forall v | min <= v <= max :: allowed(v)
  }

  lemma StarAllowsAll(min: int, max: int)
    ensures AllowsAll(v => FieldAllows("*", min, max, v), min, max)
  {
    StarMeans(min, max);
    forall v | min <= v <= max
      ensures FieldAllows("*", min, max, v)
    {
      PlainField("*", min, max, v);
    }
  }

  /** The first minute after `base` at position `m` of the day, and the following ones. */
  lemma MinuteOfDayWithin(base: int, m: int) returns (t: int)
    requires 0 <= m < 1440
    ensures base < t <= base + 1440 && t % 1440 == m
  {
    t := base + 1 + (m - (base + 1)) % 1440;
  }

  lemma MinuteParts(t: int, h: int, mi: int)
    requires 0 <= h < 24 && 0 <= mi < 60 && t % 1440 == h * 60 + mi
    ensures t % 60 == mi && t / 60 % 24 == h
  {
    var day := t / 1440;
    assert t == 60 * (24 * day + h) + mi;
    assert t / 60 == 24 * day + h;
  }

  lemma DayLater(t: int, k: int)
    ensures (t + 1440 * k) % 1440 == t % 1440 && (t + 1440 * k) / 1440 == t / 1440 + k
  {
  }

  lemma WeekdayReached(n: int, wd: int) returns (k: nat)
    requires 0 <= wd <= 6
    ensures k <= 6 && Weekday(n + k) == wd
  {
    k := (wd - Weekday(n)) % 7;
  }

  ghost predicate TimeAllowed(s: Schedule, h: int, mi: int) {
    0 <= h < 24 && 0 <= mi < 60 && s.hour(h) && s.minute(mi)
  }

  /** An allowed time on an allowed day, `k` days after its first occurrence behind `base`. */
  lemma RunOnDay(s: Schedule, base: int, h: int, mi: int, first: int, k: nat)
    requires TimeAllowed(s, h, mi)
    requires base < first <= base + 1440 && first % 1440 == h * 60 + mi
    requires DayAllowed(s, first / 1440 + k)
    ensures base < first + 1440 * k <= base + 1440 * (k + 1) && DueAt(s, first + 1440 * k)
  {
    DayLater(first, k);
    MinuteParts(first + 1440 * k, h, mi);
  }

  lemma FoundBy(s: Schedule, base: int, next: Option<int>, t: int)
    requires IsNext(DueMinutes(s), base, next) && InHorizon(base, t) && DueAt(s, t)
    ensures next.Some? && next.value <= t
  {
    assert DueMinutes(s)(t);
    NextExists(DueMinutes(s), base, next);
  }

  lemma AnyDateAllowed(s: Schedule, n: int)
    requires AllowsAll(s.month, 1, 12)
    ensures s.month(DateOf(n).month)
    ensures AllowsAll(s.dom, 1, 31) ==> s.dom(DateOf(n).day)
    ensures AllowsAll(s.dow, 0, 6) ==> s.dow(Weekday(n))
  {
    DateBounds(n);
  }

  /** With the day of the month free and some weekday allowed there is a run within 7 days. */
  lemma WeeklyRunExists(s: Schedule, base: int, h: int, mi: int, wd: int, next: Option<int>)
    requires IsNext(DueMinutes(s), base, next) && TimeAllowed(s, h, mi)
    requires AllowsAll(s.dom, 1, 31) && AllowsAll(s.month, 1, 12) && 0 <= wd <= 6 && s.dow(wd)
    ensures next.Some? && next.value <= base + 7 * 1440
  {
    var first := MinuteOfDayWithin(base, h * 60 + mi);
    var k := WeekdayReached(first / 1440, wd);
    AnyDateAllowed(s, first / 1440 + k);
    RunOnDay(s, base, h, mi, first, k);
    FoundBy(s, base, next, first + 1440 * k);
  }

  /** With the weekday free and some day up to the 28th allowed there is a run within 31 days. */
  lemma MonthlyRunExists(s: Schedule, base: int, h: int, mi: int, day: int, next: Option<int>)
    requires IsNext(DueMinutes(s), base, next) && TimeAllowed(s, h, mi)
    requires 1 <= day <= 28 && s.dom(day) && AllowsAll(s.month, 1, 12) && AllowsAll(s.dow, 0, 6)
    ensures next.Some? && next.value <= base + 31 * 1440
  {
    var first := MinuteOfDayWithin(base, h * 60 + mi);
    var k := DayWithinMonth(first / 1440, day);
    AnyDateAllowed(s, first / 1440 + k);
    RunOnDay(s, base, h, mi, first, k);
    FoundBy(s, base, next, first + 1440 * k);
  }

  // ---------------------------------------------------------------- the horizon is 365 days

  /** One minute of one date of the year. */
  ghost predicate OnDate(month: int, day: int, minute: int, t: int) {
    t % 1440 == minute && DateOf(t / 1440).month == month && DateOf(t / 1440).day == day
  }

  /** The expression names exactly that minute of that date, every year. */
  ghost predicate Yearly(due: int -> bool, month: int, day: int, minute: int) {
    forall t :: due(t) <==> OnDate(month, day, minute, t)
  }

  /** After a yearly run none is found exactly when the year from it on, the day itself included, holds a
      leap day, so never after a run on the leap day; otherwise it follows after 365 days. */
  lemma YearlyRunIsMissedAcrossLeapDay(due: int -> bool, month: int, day: int, minute: int, t: int, next: Option<int>)
    requires Yearly(due, month, day, minute)
    requires due(t) && IsNext(due, t, next)
    ensures next.None? <==> LeapDayAhead(DateOf(t / 1440).year, month)
    ensures month == 2 && day == 29 ==> next.None?
    ensures next.Some? ==> next == Some(t + HORIZON)
  {
    if next.Some? {
      NoRunInBetween(month, day, minute, t, next.value);
    }
    if month == 2 && day == 29 {
      assert ValidDate(DateOf(t / 1440));
    } else {
      var again := YearLater(month, day, minute, t);
      assert due(again);
    }
  }

  // An annual expression on which it shows.

  /** Midnight of 1 March, whatever the weekday. */
  predicate IsFirstOfMarch(cron: string) {
    cron == "0 0 1 3 *"
  }

  predicate IsWord(w: string) {
    w != "" && forall k | 0 <= k < |w| :: !IsBlank(w[k])
  }

  lemma {:induction false} WordLengthIs(w: string, rest: string)
    requires forall k | 0 <= k < |w| :: !IsBlank(w[k])
    ensures WordLength(w) == |w| && WordLength(w + " " + rest) == |w|
  {
    if w == "" {
      assert ("" + " " + rest)[0] == ' ';
    } else {
      assert (w + " " + rest)[1..] == w[1..] + " " + rest;
      WordLengthIs(w[1..], rest);
    }
  }

  lemma WordThenRest(w: string, rest: string)
    requires IsWord(w)
    ensures Fields(w) == [w]
    ensures Fields(w + " " + rest) == [w] + Fields(rest)
  {
    WordLengthIs(w, rest);
    assert w[..|w|] == w && w[|w|..] == [];
    var s := w + " " + rest;
    assert s[..|w|] == w && s[|w|..] == " " + rest && (" " + rest)[1..] == rest;
    assert Fields(" " + rest) == Fields(rest);
    assert s[0] == w[0];
  }

  function Spaced(words: seq<string>): string
    requires words != []
  {
    if |words| == 1 then words[0] else words[0] + " " + Spaced(words[1..])
  }

  /** The fields of words with blanks between them are the words. */
  lemma {:induction false} SpacedFields(words: seq<string>)
    requires words != [] && forall k | 0 <= k < |words| :: IsWord(words[k])
    ensures Fields(Spaced(words)) == words
  {
    if |words| == 1 {
      WordThenRest(words[0], "");
      assert words == [words[0]];
    } else {
      WordThenRest(words[0], Spaced(words[1..]));
      SpacedFields(words[1..]);
    }
  }

  lemma SpacedThree(a: string, b: string, c: string)
    ensures Spaced([a, b, c]) == a + " " + (b + " " + c)
  {
    assert [a, b, c][1..] == [b, c] && [b, c][1..] == [c];
    assert Spaced([b, c]) == b + " " + Spaced([c]);
  }

  lemma SpacedFive(a: string, b: string, c: string, d: string, e: string)
    ensures Spaced([a, b, c, d, e]) == a + " " + (b + " " + (c + " " + (d + " " + e)))
  {
    assert [a, b, c, d, e][1..] == [b, c, d, e] && [b, c, d, e][1..] == [c, d, e];
    SpacedThree(c, d, e);
  }

  /** A minute range with stars behind it makes the whole computation endless, by the same condition. */
  lemma RangeCronIsEndlessExactly(a: nat, b: nat)
    requires a <= MAX_INT64 && b <= MAX_INT64
    ensures CronEndless(Spaced([NatText(a) + "-" + NatText(b), "*", "*", "*", "*"])) <==> b == MAX_INT64
  {
    RangeIsWord(a, b);
    WordThenStars(NatText(a) + "-" + NatText(b));
    RangeIsEndlessExactly(a, b, 0, 59);
    EndlessMinute(Spaced([NatText(a) + "-" + NatText(b), "*", "*", "*", "*"]), NatText(a) + "-" + NatText(b));
  }

  lemma RangeIsWord(a: nat, b: nat)
    requires a <= MAX_INT64 && b <= MAX_INT64
    ensures IsWord(NatText(a) + "-" + NatText(b))
  {
    var w := NatText(a) + "-" + NatText(b);
    RangeChars(a, b);
    assert forall k | 0 <= k < |w| :: w[k] in w;
  }

  lemma WordThenStars(w: string)
    requires IsWord(w)
    ensures Fields(Spaced([w, "*", "*", "*", "*"])) == [w, "*", "*", "*", "*"]
  {
    SpacedFields([w, "*", "*", "*", "*"]);
  }

  lemma EndlessMinute(cron: string, w: string)
    requires Fields(cron) == [w, "*", "*", "*", "*"]
    ensures CronEndless(cron) <==> FieldEndless(w, 0, 59)
  {
    StarEnds(0, 23);
    StarEnds(1, 31);
    StarEnds(1, 12);
    StarEnds(0, 6);
  }

  lemma StarMeans(min: int, max: int)
    ensures Meaning("*", min, max) == Every(min, max, 1)
  {
    PlainField("*", min, max, 0);
  }

  lemma StarEnds(min: int, max: int)
    requires IsInt64(min) && IsInt64(max) && max < MAX_INT64
    ensures !FieldEndless("*", min, max)
  {
    PlainField("*", min, max, 0);
    StarMeans(min, max);
    LoopEndsExactly(min, max);
  }

  lemma FirstOfMarchFields(cron: string)
    requires IsFirstOfMarch(cron)
    ensures Fields(cron) == [NatText(0), NatText(0), NatText(1), NatText(3), "*"]
  {
    var words := [NatText(0), NatText(0), NatText(1), NatText(3), "*"];
    SpacedFive(NatText(0), NatText(0), NatText(1), NatText(3), "*");
    assert Spaced(words) == cron;
    SpacedFields(words);
  }

  lemma FirstOfMarchTime(cron: string, mi: int, h: int)
    requires IsFirstOfMarch(cron)
    ensures ScheduleOf(cron).minute(mi) <==> mi == 0
    ensures ScheduleOf(cron).hour(h) <==> h == 0
  {
    FirstOfMarchFields(cron);
    NumberField(0, 0, 59, mi);
    NumberField(0, 0, 23, h);
  }

  lemma FirstOfMarchDay(cron: string, d: int, m: int, wd: int)
    requires IsFirstOfMarch(cron) && 0 <= wd <= 6
    ensures ScheduleOf(cron).dom(d) <==> d == 1
    ensures ScheduleOf(cron).month(m) <==> m == 3
    ensures ScheduleOf(cron).dow(wd)
  {
    FirstOfMarchFields(cron);
    NumberField(1, 1, 31, d);
    NumberField(3, 1, 12, m);
    StarAllowsAll(0, 6);
  }

  lemma FirstOfMarchIsYearly(cron: string)
    requires IsFirstOfMarch(cron)
    ensures Yearly(DueMinutes(ScheduleOf(cron)), 3, 1, 0)
  {
    var s := ScheduleOf(cron);
    forall t
      ensures DueMinutes(s)(t) <==> OnDate(3, 1, 0, t)
    {
      FirstOfMarchTime(cron, t % 60, t / 60 % 24);
      FirstOfMarchDay(cron, DateOf(t / 1440).day, DateOf(t / 1440).month, Weekday(t / 1440));
      MidnightParts(t);
    }
  }

  lemma MidnightParts(t: int)
    ensures t % 1440 == 0 <==> t % 60 == 0 && t / 60 % 24 == 0
  {
  }

  /** After the run of 1 March the search for a valid annual expression finds nothing exactly before leap years. */
  lemma FirstOfMarchStops(cron: string, y: int, t: int, next: Option<int>)
    requires IsFirstOfMarch(cron) && t == 1440 * DayNumber(Date(y, 3, 1))
    requires IsNext(DueMinutes(ScheduleOf(cron)), t, next)
    ensures next.None? <==> Leap(y + 1)
  {
    FirstOfMarchIsYearly(cron);
    DateOfNumber(Date(y, 3, 1));
    var n := DayNumber(Date(y, 3, 1));
    assert t / 1440 == n && t % 1440 == 0;
    YearlyRunIsMissedAcrossLeapDay(DueMinutes(ScheduleOf(cron)), 3, 1, 0, t, next);
  }

  lemma FirstOfMarchEnds(cron: string)
    requires IsFirstOfMarch(cron)
    ensures !CronEndless(cron)
  {
    FirstOfMarchFields(cron);
    NumbersEnd(cron, 0, 0, 1, 3);
  }

  lemma NumberEnds(n: nat, min: int, max: int)
    requires n <= MAX_INT64
    ensures !FieldEndless(NatText(n), min, max)
  {
    NumberField(n, min, max, n);
    NatTextIsPlain(n);
    PlainField(NatText(n), min, max, n);
  }

  lemma NumbersEnd(cron: string, mi: nat, h: nat, d: nat, m: nat)
    requires Fields(cron) == [NatText(mi), NatText(h), NatText(d), NatText(m), "*"]
    requires mi <= 59 && h <= 23 && d <= 31 && m <= 12
    ensures !CronEndless(cron)
  {
    NumberEnds(mi, 0, 59);
    NumberEnds(h, 0, 23);
    NumberEnds(d, 1, 31);
    NumberEnds(m, 1, 12);
    StarEnds(0, 6);
    EndsWhenFieldsEnd(cron, NatText(mi), NatText(h), NatText(d), NatText(m), "*");
  }

  lemma EndsWhenFieldsEnd(cron: string, mi: string, h: string, d: string, m: string, wd: string)
    requires Fields(cron) == [mi, h, d, m, wd]
    requires !FieldEndless(mi, 0, 59) && !FieldEndless(h, 0, 23) && !FieldEndless(d, 1, 31)
    requires !FieldEndless(m, 1, 12) && !FieldEndless(wd, 0, 6)
    ensures !CronEndless(cron)
  {
  }

  /** Validation depends on the date: right after its run the same expression is refused exactly in the
      years before leap years. */
  lemma ValidityDependsOnDate(cron: string, y: int)
    requires IsFirstOfMarch(cron)
    ensures !CronEndless(cron) && (ValidAt(cron, 1440 * DayNumber(Date(y, 3, 1))) <==> !Leap(y + 1))
  {
    FirstOfMarchEnds(cron);
    var due, t := DueMinutes(ScheduleOf(cron)), 1440 * DayNumber(Date(y, 3, 1));
    var next := NextOf(due, t);
    FirstOfMarchStops(cron, y, t, next);
    NextExists(due, t, next);
  }

  lemma NextOf(due: int -> bool, base: int) returns (next: Option<int>)
    ensures IsNext(due, base, next)
  {
    next := None;
    for t := base to base + HORIZON
      invariant next.None? && forall u | base < u <= t :: !due(u)
    {
      if due(t + 1) {
        return Some(t + 1);
      }
    }
  }

  /** The same minute one year later is 365 or 366 days ahead. */
  lemma YearLater(month: int, day: int, minute: int, t: int) returns (again: int)
    requires OnDate(month, day, minute, t) && !(month == 2 && day == 29)
    ensures OnDate(month, day, minute, again)
    ensures again == t + 1440 * if LeapDayAhead(DateOf(t / 1440).year, month) then 366 else 365
  {
    var k := if LeapDayAhead(DateOf(t / 1440).year, month) then 366 else 365;
    SameDateAgain(t / 1440);
    again := t + 1440 * k;
    DayLater(t, k);
  }

  /** Two runs of a yearly schedule are at least the distance to next year's date apart. */
  lemma NoRunInBetween(month: int, day: int, minute: int, t: int, u: int)
    requires OnDate(month, day, minute, t) && OnDate(month, day, minute, u) && t < u
    ensures u >= t + 1440 * if LeapDayAhead(DateOf(t / 1440).year, month) then 366 else 365
  {
    assert t / 1440 < u / 1440;
    SameDateApart(t / 1440, u / 1440);
  }
}
