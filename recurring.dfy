/**
 * The recurrence sequences: a fixed-timedelta stepper with its daylight-saving
 * policy, an iCalendar rule-set builder (RRULE, RDATE, EXDATE and EXRULE of
 * RFC 2445 sections 4.3.10 and 4.8.5), and the conversion of a sequence of
 * datetimes to integer minute keys. Expanding one recurrence rule is the job
 * of a calendar library; here it is the parameter `expand`.
 */
module Recurring {
  import opened Wrappers
  import opened Time
  import opened Sets

  // ---------------------------------------------------------------------
  // Timedelta sequences

  /** A timedelta recurrence: start, step in minutes, until and DST policy. */
  datatype RRuleTimeDelta = RRuleTimeDelta(start: DateTime, recrule: Option<int>, until: Option<DateTime>, dst: Dst)

  /** The definition steps at all: a step of at least one minute and an until. */
  predicate Repeats(recurdef: RRuleTimeDelta)
  {
    recurdef.recrule.Some? && recurdef.recrule.value >= 1 && recurdef.until.Some?
  }

  /** The policy a step of `delta` minutes uses: `Auto` keeps absolute time below one day and adjusts from one day on. */
  function ResolveDst(dst: Dst, delta: int): (r: Dst)
    ensures r != Auto
    ensures dst != Auto ==> r == dst
    ensures dst == Auto ==> (r == Keep <==> delta < MinutesPerDay)
  {
    if dst == Auto && delta < MinutesPerDay then Keep
    else if dst == Auto then Adjust
    else dst
  }

  /**
   * One step of `delta` minutes from `before`. The result carries the offset
   * in force at `before` plus `delta` of absolute time; under `Adjust` it
   * keeps the wall-clock reading `before` plus `delta`, otherwise it keeps
   * the absolute instant `before` plus `delta`.
   */
  function Step(tz: int -> int, policy: Dst, before: DateTime, delta: int): (after: DateTime)
    ensures after.offset == tz(before.utc + delta)
    ensures policy == Adjust ==> Wall(after) == Wall(before) + delta
    ensures policy != Adjust ==> after.utc == before.utc + delta
  {
    var instant := before.utc + delta;
    if policy == Adjust then DateTime(Wall(before) + delta - tz(instant), tz(instant))
    else DateTime(instant, tz(instant))
  }

  /** Each element is the step of the one before it. */
  ghost predicate Stepped(tz: int -> int, policy: Dst, delta: int, dates: seq<DateTime>)
  {
    forall i :: 1 <= i < |dates| ==> dates[i] == Step(tz, policy, dates[i - 1], delta)
  }

  /**
   * The timedelta sequence: `start`, then repeated steps of `delta` minutes
   * for as long as the stepped instant is not after `until`.
   */
  method RecurringSequenceTimeDelta(tz: int -> int, recurdef: RRuleTimeDelta) returns (dates: seq<DateTime>)
    requires ValidZone(tz)
    ensures |dates| >= 1 && dates[0] == recurdef.start
    ensures !Repeats(recurdef) ==> dates == [recurdef.start]
    ensures Repeats(recurdef) ==>
      var delta, until := recurdef.recrule.value, recurdef.until.value;
      var policy := ResolveDst(recurdef.dst, delta);
      && Stepped(tz, policy, delta, dates)
      && (forall i :: 1 <= i < |dates| ==> dates[i].utc <= until.utc)
      && Step(tz, policy, dates[|dates| - 1], delta).utc > until.utc
  {
    var start := recurdef.start;
    if !Repeats(recurdef) {
      return [start];
    }
    var delta := recurdef.recrule.value;
    var until := recurdef.until.value;
    var policy := ResolveDst(recurdef.dst, delta);
    dates := [start];
    var before := start;
    while true
      invariant |dates| >= 1 && dates[0] == start && before == dates[|dates| - 1]
      invariant Stepped(tz, policy, delta, dates)
      invariant forall i :: 1 <= i < |dates| ==> dates[i].utc <= until.utc
      decreases if policy == Keep then until.utc - before.utc else until.utc + MinutesPerDay - Wall(before)
    {
      var instant := before.utc + delta;
      var after: DateTime;
      if policy == Adjust {
        after := DateTime(Wall(before) + delta - tz(instant), tz(instant));
      } else {
        after := DateTime(instant, tz(instant));
      }
      if after.utc > until.utc {
        break;
      }
      dates := dates + [after];
      before := after;
    }
  }

  /** Under `Keep` the i-th element lies exactly i steps of absolute time after the first. */
  lemma {:induction false} KeepIsEvenlySpaced(tz: int -> int, delta: int, dates: seq<DateTime>, i: nat)
    requires Stepped(tz, Keep, delta, dates) && i < |dates|
    ensures dates[i].utc == dates[0].utc + i * delta
  {
    if i > 0 {
      KeepIsEvenlySpaced(tz, delta, dates, i - 1);
      assert dates[i] == Step(tz, Keep, dates[i - 1], delta);
    }
  }

  /** Under `Adjust` the i-th element reads i steps of wall-clock time after the first. */
  lemma {:induction false} AdjustKeepsWallClock(tz: int -> int, delta: int, dates: seq<DateTime>, i: nat)
    requires Stepped(tz, Adjust, delta, dates) && i < |dates|
    ensures Wall(dates[i]) == Wall(dates[0]) + i * delta
  {
    if i > 0 {
      AdjustKeepsWallClock(tz, delta, dates, i - 1);
      assert dates[i] == Step(tz, Adjust, dates[i - 1], delta);
    }
  }

  /** Under `Keep` with a positive step the sequence is strictly ascending in absolute time. */
  lemma KeepIsAscending(tz: int -> int, delta: int, dates: seq<DateTime>, i: nat, j: nat)
    requires Stepped(tz, Keep, delta, dates) && delta >= 1 && i < j < |dates|
    ensures dates[i].utc < dates[j].utc
  {
    KeepIsEvenlySpaced(tz, delta, dates, i);
    KeepIsEvenlySpaced(tz, delta, dates, j);
    assert j * delta == i * delta + (j - i) * delta;
  }

  /**
   * Under `Keep`, a sequence that starts no later than `until` holds one
   * element per whole step that fits between start and until, plus the start.
   */
  lemma KeepCount(tz: int -> int, recurdef: RRuleTimeDelta, dates: seq<DateTime>)
    requires Repeats(recurdef) && ResolveDst(recurdef.dst, recurdef.recrule.value) == Keep
    requires recurdef.start.utc <= recurdef.until.value.utc
    requires |dates| >= 1 && dates[0] == recurdef.start
    requires Stepped(tz, Keep, recurdef.recrule.value, dates)
    requires forall i :: 1 <= i < |dates| ==> dates[i].utc <= recurdef.until.value.utc
    requires Step(tz, Keep, dates[|dates| - 1], recurdef.recrule.value).utc > recurdef.until.value.utc
    ensures |dates| == (recurdef.until.value.utc - recurdef.start.utc) / recurdef.recrule.value + 1
  {
    var delta, span, n := recurdef.recrule.value, recurdef.until.value.utc - recurdef.start.utc, |dates|;
    KeepIsEvenlySpaced(tz, delta, dates, n - 1);
    assert (n - 1) * delta <= span;
    assert span < n * delta;
    DivisionUnique(span, delta, n - 1);
  }

  /** A quotient is the only q with q * d <= x < (q + 1) * d. */
  lemma DivisionUnique(x: int, d: int, q: int)
    requires d >= 1 && 0 <= x && 0 <= q && q * d <= x < (q + 1) * d
    ensures x / d == q
  {
    var q' := x / d;
    assert q' * d <= x < (q' + 1) * d;
  }

  // ---------------------------------------------------------------------
  // Integer sequences

  /** The integer keys of a sequence of UTC instants, one for one and in order. */
  function IntSequence(dt2int: int -> int, instants: seq<int>): (keys: seq<int>)
  {
    seq(|instants|, i requires 0 <= i < |instants| => dt2int(instants[i]))
  }

  ghost predicate Monotone(dt2int: int -> int)
  {
    forall a, b :: a <= b ==> dt2int(a) <= dt2int(b)
  }

  /** The UTC instants of a sequence of datetimes. */
  function Utc(dates: seq<DateTime>): seq<int>
  {
    seq(|dates|, i requires 0 <= i < |dates| => dates[i].utc)
  }

  /** A monotone key function keeps the length and the order of an ascending sequence. */
  lemma IntSequencePreservesOrder(dt2int: int -> int, instants: seq<int>)
    requires Monotone(dt2int)
    requires forall i, j :: 0 <= i < j < |instants| ==> instants[i] <= instants[j]
    ensures var keys := IntSequence(dt2int, instants);
      |keys| == |instants| &&
      (forall i :: 0 <= i < |keys| ==> keys[i] == dt2int(instants[i])) &&
      (forall i, j :: 0 <= i < j < |keys| ==> keys[i] <= keys[j])
  {
  }

  /** The keys of a `Keep` timedelta sequence are in ascending order, the first being the key of the start. */
  lemma TimeDeltaKeysAscend(tz: int -> int, dt2int: int -> int, delta: int, dates: seq<DateTime>)
    requires Monotone(dt2int) && delta >= 1 && |dates| >= 1
    requires Stepped(tz, Keep, delta, dates)
    ensures var keys := IntSequence(dt2int, Utc(dates));
      |keys| == |dates| && keys[0] == dt2int(dates[0].utc) &&
      forall i, j :: 0 <= i < j < |keys| ==> keys[i] <= keys[j]
  {
    forall i, j | 0 <= i < j < |dates|
      ensures Utc(dates)[i] <= Utc(dates)[j]
    {
      KeepIsAscending(tz, delta, dates, i, j);
    }
    IntSequencePreservesOrder(dt2int, Utc(dates));
  }

  // ---------------------------------------------------------------------
  // iCalendar rule sets

  /**
   * One rule as a dictionary: `dtstart` and `until` are None when missing or
   * empty, `freq` is None when missing or None, `exclude` is None when the key
   * is absent; `extra` holds the remaining recurrence keywords.
   */
  datatype RuleDict = RuleDict(
    dtstart: Option<DateTime>, until: Option<DateTime>, freq: Option<int>,
    exclude: Option<bool>, extra: map<string, int>)

  /** The keyword arguments a recurrence rule is expanded from; there is no `exclude` among them. */
  datatype RRuleArgs = RRuleArgs(dtstart: DateTime, until: Option<DateTime>, freq: int, extra: map<string, int>)

  /** A rule set: added dates, excluded dates, inclusion rules and exclusion rules. */
  datatype RSet = RSet(rdates: seq<DateTime>, exdates: seq<DateTime>, rrules: seq<RRuleArgs>, exrules: seq<RRuleArgs>)

  /** What one rule contributes to a rule set. */
  datatype Entry = RDate(dt: DateTime) | ExDate(dt: DateTime) | RRule(args: RRuleArgs) | ExRule(args: RRuleArgs)

  /** The constructor's `recrule`: a single rule or a list (or tuple) of rules. */
  datatype RecRule = Single(rule: RuleDict) | Many(rules: seq<RuleDict>)

  class RRuleICal {
    var start: DateTime
    var until: Option<DateTime>
    var dst: Dst
    var exclude: bool
    var recrule: seq<RuleDict>

    /** Wraps a single rule into a one-element list; the DST policy is always `Auto`. */
    constructor (start: DateTime, recrule: RecRule, until: Option<DateTime>, dst: Dst, exclude: bool)
      ensures this.start == start && this.until == until && this.exclude == exclude
      ensures this.dst == Auto
      ensures this.recrule == if recrule.Single? then [recrule.rule] else recrule.rules
    {
      this.exclude := exclude;
      this.start := start;
      this.recrule := if recrule.Single? then [recrule.rule] else recrule.rules;
      this.until := until;
      this.dst := Auto;
    }
  }

  predicate Excludes(rule: RuleDict)
  {
    rule.exclude.Some? && rule.exclude.value
  }

  /** The rule with the set's start and until filled in where its own are missing. */
  function WithDefaults(rule: RuleDict, start: DateTime, until: Option<DateTime>): RuleDict
  {
    rule.(dtstart := Some(if rule.dtstart.Some? then rule.dtstart.value else start),
          until := if rule.until.Some? then rule.until else until)
  }

  /**
   * What a rule contributes: without a frequency its start is a single added
   * or excluded date, with one it is an inclusion or exclusion rule. Its own
   * start and until win; missing ones are inherited from the set.
   */
  function Dispatch(rule: RuleDict, start: DateTime, until: Option<DateTime>): (e: Entry)
    ensures (e.RDate? || e.ExDate?) <==> rule.freq.None?
    ensures (e.ExDate? || e.ExRule?) <==> Excludes(rule)
    ensures (e.RDate? || e.ExDate?) ==> e.dt == (if rule.dtstart.Some? then rule.dtstart.value else start)
    ensures (e.RRule? || e.ExRule?) ==>
      && e.args.dtstart == (if rule.dtstart.Some? then rule.dtstart.value else start)
      && e.args.until == (if rule.until.Some? then rule.until else until)
      && e.args.freq == rule.freq.value && e.args.extra == rule.extra
  {
    var r := WithDefaults(rule, start, until);
    var args := RRuleArgs(r.dtstart.value, r.until, if r.freq.Some? then r.freq.value else 0, r.extra);
    if r.freq.None? && !Excludes(r) then RDate(r.dtstart.value)
    else if r.freq.None? then ExDate(r.dtstart.value)
    else if Excludes(r) then ExRule(args)
    else RRule(args)
  }

  function Add(rset: RSet, e: Entry): RSet
  {
    match e
    case RDate(dt) => rset.(rdates := rset.rdates + [dt])
    case ExDate(dt) => rset.(exdates := rset.exdates + [dt])
    case RRule(args) => rset.(rrules := rset.rrules + [args])
    case ExRule(args) => rset.(exrules := rset.exrules + [args])
  }

  /** The rule set of a start, an until and a list of rules: the start first, then each rule's contribution in order. */
  function BuildSet(start: DateTime, until: Option<DateTime>, rules: seq<RuleDict>): (rset: RSet)
    ensures |rset.rdates| >= 1 && rset.rdates[0] == start
    ensures |rset.rdates| + |rset.exdates| + |rset.rrules| + |rset.exrules| == |rules| + 1
    decreases |rules|
  {
    if rules == [] then RSet([start], [], [], [])
    else Add(BuildSet(start, until, rules[..|rules| - 1]), Dispatch(rules[|rules| - 1], start, until))
  }

  function Instants(ds: seq<DateTime>): set<int>
  {
    set i | 0 <= i < |ds| :: ds[i].utc
  }

  function ExpandAll(rules: seq<RRuleArgs>, expand: RRuleArgs -> set<int>): set<int>
  {
    set i, x | 0 <= i < |rules| && x in expand(rules[i]) :: x
  }

  /** The instants a rule set yields: what it adds minus what it excludes. */
  function Occurrences(rset: RSet, expand: RRuleArgs -> set<int>): set<int>
  {
    (Instants(rset.rdates) + ExpandAll(rset.rrules, expand)) - (Instants(rset.exdates) + ExpandAll(rset.exrules, expand))
  }

  /** The entry adds the instant `x`. */
  ghost predicate Adds(e: Entry, x: int, expand: RRuleArgs -> set<int>)
  {
    match e
    case RDate(dt) => x == dt.utc
    case RRule(args) => x in expand(args)
    case _ => false
  }

  /** The entry excludes the instant `x`. */
  ghost predicate Removes(e: Entry, x: int, expand: RRuleArgs -> set<int>)
  {
    match e
    case ExDate(dt) => x == dt.utc
    case ExRule(args) => x in expand(args)
    case _ => false
  }

  lemma AddedInstants(rset: RSet, e: Entry, x: int, expand: RRuleArgs -> set<int>)
    ensures x in Instants(Add(rset, e).rdates) + ExpandAll(Add(rset, e).rrules, expand)
        <==> x in Instants(rset.rdates) + ExpandAll(rset.rrules, expand) || Adds(e, x, expand)
    ensures x in Instants(Add(rset, e).exdates) + ExpandAll(Add(rset, e).exrules, expand)
        <==> x in Instants(rset.exdates) + ExpandAll(rset.exrules, expand) || Removes(e, x, expand)
  {
    var r := Add(rset, e);
    match e
    case RDate(dt) =>
      assert r.rdates[|rset.rdates|] == dt;
      assert forall i :: 0 <= i < |rset.rdates| ==> r.rdates[i] == rset.rdates[i];
    case ExDate(dt) =>
      assert r.exdates[|rset.exdates|] == dt;
      assert forall i :: 0 <= i < |rset.exdates| ==> r.exdates[i] == rset.exdates[i];
    case RRule(args) =>
      assert r.rrules[|rset.rrules|] == args;
      assert forall i :: 0 <= i < |rset.rrules| ==> r.rrules[i] == rset.rrules[i];
    case ExRule(args) =>
      assert r.exrules[|rset.exrules|] == args;
      assert forall i :: 0 <= i < |rset.exrules| ==> r.exrules[i] == rset.exrules[i];
  }

  /**
   * The rule set yields exactly the instants that are the start or added by
   * some rule, and that no rule excludes.
   */
  lemma {:induction false} OccurrencesOfRuleSet(start: DateTime, until: Option<DateTime>, rules: seq<RuleDict>,
                                                expand: RRuleArgs -> set<int>, x: int)
    ensures x in Occurrences(BuildSet(start, until, rules), expand) <==>
      && (x == start.utc || exists i :: 0 <= i < |rules| && Adds(Dispatch(rules[i], start, until), x, expand))
      && !exists i :: 0 <= i < |rules| && Removes(Dispatch(rules[i], start, until), x, expand)
    decreases |rules|
  {
    var rset := BuildSet(start, until, rules);
    if rules == [] {
      assert Instants(rset.rdates) == {start.utc};
    } else {
      var n := |rules| - 1;
      var init := rules[..n];
      OccurrencesOfRuleSet(start, until, init, expand, x);
      AddedInstants(BuildSet(start, until, init), Dispatch(rules[n], start, until), x, expand);
      assert forall i :: 0 <= i < n ==> init[i] == rules[i];
      IncludedOfRuleSet(start, until, init, expand, x);
      IncludedOfRuleSet(start, until, rules, expand, x);
    }
  }

  /** The included and the excluded instants of a rule set, rule by rule. */
  lemma {:induction false} IncludedOfRuleSet(start: DateTime, until: Option<DateTime>, rules: seq<RuleDict>,
                                             expand: RRuleArgs -> set<int>, x: int)
    ensures var rset := BuildSet(start, until, rules);
      && (x in Instants(rset.rdates) + ExpandAll(rset.rrules, expand) <==>
           x == start.utc || exists i :: 0 <= i < |rules| && Adds(Dispatch(rules[i], start, until), x, expand))
      && (x in Instants(rset.exdates) + ExpandAll(rset.exrules, expand) <==>
           exists i :: 0 <= i < |rules| && Removes(Dispatch(rules[i], start, until), x, expand))
    decreases |rules|
  {
    var rset := BuildSet(start, until, rules);
    if rules == [] {
      assert Instants(rset.rdates) == {start.utc};
    } else {
      var n := |rules| - 1;
      var init := rules[..n];
      IncludedOfRuleSet(start, until, init, expand, x);
      AddedInstants(BuildSet(start, until, init), Dispatch(rules[n], start, until), x, expand);
      assert forall i :: 0 <= i < n ==> init[i] == rules[i];
    }
  }

  /** The start is always yielded unless a rule excludes it. */
  lemma BaseDateIncluded(start: DateTime, until: Option<DateTime>, rules: seq<RuleDict>, expand: RRuleArgs -> set<int>)
    ensures start.utc in Occurrences(BuildSet(start, until, rules), expand) <==>
      !exists i :: 0 <= i < |rules| && Removes(Dispatch(rules[i], start, until), start.utc, expand)
  {
    OccurrencesOfRuleSet(start, until, rules, expand, start.utc);
  }

  /** The smallest element of a non-empty set. */
  ghost function Least(s: set<int>): (m: int)
    requires s != {}
    ensures m in s
    ensures forall y :: y in s ==> m <= y
  {
    NonEmpty(s);
    var x :| x in s;
    if s == {x} then
      assert forall y :: y in s ==> y == x;
      x
    else
      assert s - {x} != {};
      var y := Least(s - {x});
      assert forall z :: z in s ==> z == x || z in s - {x};
      if x < y then x else y
  }

  /** Iterating a rule set: its instants in strictly ascending order, each once. */
  ghost function Ordered(s: set<int>): (r: seq<int>)
    ensures |r| == |s|
    ensures forall x :: x in r <==> x in s
    ensures forall i, j :: 0 <= i < j < |r| ==> r[i] < r[j]
    decreases |s|
  {
    if s == {} then []
    else
      var m := Least(s);
      [m] + Ordered(s - {m})
  }

  /** The keys of an iterated rule set ascend and are the keys of its occurrences. */
  lemma RuleSetKeysAscend(dt2int: int -> int, rset: RSet, expand: RRuleArgs -> set<int>)
    requires Monotone(dt2int)
    ensures var keys := IntSequence(dt2int, Ordered(Occurrences(rset, expand)));
      && |keys| == |Occurrences(rset, expand)|
      && (forall i, j :: 0 <= i < j < |keys| ==> keys[i] <= keys[j])
      && (forall k :: k in keys ==> exists x :: x in Occurrences(rset, expand) && k == dt2int(x))
  {
    var instants := Ordered(Occurrences(rset, expand));
    IntSequencePreservesOrder(dt2int, instants);
    var keys := IntSequence(dt2int, instants);
    forall k | k in keys
      ensures exists x :: x in Occurrences(rset, expand) && k == dt2int(x)
    {
      var i :| 0 <= i < |keys| && keys[i] == k;
      assert instants[i] in Occurrences(rset, expand);
    }
  }

  /** How the generator leaves a rule dictionary: defaults filled in and the `exclude` key deleted. */
  function StoredAsWritten(rule: RuleDict, start: DateTime, until: Option<DateTime>): RuleDict
  {
    WithDefaults(rule, start, until).(exclude := None)
  }

  /**
   * The rule set of an iCalendar recurrence, as the generator builds it:
   * the start as an added date, then each rule's contribution. It edits the
   * caller's rule dictionaries in place, deleting their `exclude` keys.
   */
  method RecurringSequenceICal(recruleset: RRuleICal) returns (rset: RSet)
    modifies recruleset
    ensures rset == BuildSet(old(recruleset.start), old(recruleset.until), old(recruleset.recrule))
    ensures |recruleset.recrule| == |old(recruleset.recrule)|
    ensures forall i :: 0 <= i < |recruleset.recrule| ==>
      recruleset.recrule[i] == StoredAsWritten(old(recruleset.recrule)[i], old(recruleset.start), old(recruleset.until))
    ensures recruleset.start == old(recruleset.start) && recruleset.until == old(recruleset.until)
    ensures recruleset.dst == old(recruleset.dst) && recruleset.exclude == old(recruleset.exclude)
  {
    var rules := recruleset.recrule;
    var start, until := recruleset.start, recruleset.until;
    rset := RSet([start], [], [], []);
    var i := 0;
    while i < |rules|
      invariant 0 <= i <= |rules|
      invariant recruleset.start == start && recruleset.until == until
      invariant recruleset.dst == old(recruleset.dst) && recruleset.exclude == old(recruleset.exclude)
      invariant |recruleset.recrule| == |rules|
      invariant forall j :: 0 <= j < i ==> recruleset.recrule[j] == StoredAsWritten(rules[j], start, until)
      invariant forall j :: i <= j < |rules| ==> recruleset.recrule[j] == rules[j]
      invariant rset == BuildSet(start, until, rules[..i])
    {
      ghost var rset0, e := rset, Dispatch(rules[i], start, until);
      var recrule := recruleset.recrule[i];
      var dtstart := if recrule.dtstart.Some? then recrule.dtstart.value else start;
      var ruleUntil := if recrule.until.Some? then recrule.until else until;
      var exclude := recrule.exclude.Some? && recrule.exclude.value;
      recrule := recrule.(dtstart := Some(dtstart), until := ruleUntil, exclude := None);
      recruleset.recrule := recruleset.recrule[i := recrule];
      if recrule.freq.None? && !exclude {
        rset := rset.(rdates := rset.rdates + [dtstart]);
      } else if recrule.freq.None? && exclude {
        rset := rset.(exdates := rset.exdates + [dtstart]);
      } else if exclude {
        rset := rset.(exrules := rset.exrules + [RRuleArgs(dtstart, ruleUntil, recrule.freq.value, recrule.extra)]);
      } else {
        rset := rset.(rrules := rset.rrules + [RRuleArgs(dtstart, ruleUntil, recrule.freq.value, recrule.extra)]);
      }
      assert rset == Add(rset0, e);
      assert rules[..i + 1][..i] == rules[..i] && rules[..i + 1][i] == rules[i];
      i := i + 1;
    }
    assert rules[..|rules|] == rules;
  }

  /**
   * Expanding the same recurrence a second time, from the dictionaries the
   * first expansion left behind, turns an excluded date into an added one.
   */
  lemma ReexpansionLosesExclusions(start: DateTime, expand: RRuleArgs -> set<int>)
    ensures var rules := [RuleDict(None, None, None, Some(true), map[])];
      && start.utc !in Occurrences(BuildSet(start, None, rules), expand)
      && start.utc in Occurrences(BuildSet(start, None, [StoredAsWritten(rules[0], start, None)]), expand)
  {
    var rules := [RuleDict(None, None, None, Some(true), map[])];
    BaseDateIncluded(start, None, rules, expand);
    var again := [StoredAsWritten(rules[0], start, None)];
    BaseDateIncluded(start, None, again, expand);
  }

  /** How the corrected generator leaves a rule dictionary: defaults filled in, `exclude` kept. */
  function StoredRestartable(rule: RuleDict, start: DateTime, until: Option<DateTime>): RuleDict
  {
    WithDefaults(rule, start, until)
  }

  /** Filling in the defaults changes nothing about what a rule contributes. */
  lemma {:induction false} RestartableBuildSet(start: DateTime, until: Option<DateTime>, rules: seq<RuleDict>, stored: seq<RuleDict>)
    requires |stored| == |rules|
    requires forall i :: 0 <= i < |rules| ==> stored[i] == StoredRestartable(rules[i], start, until)
    ensures BuildSet(start, until, stored) == BuildSet(start, until, rules)
    decreases |rules|
  {
    if rules != [] {
      var n := |rules| - 1;
      RestartableBuildSet(start, until, rules[..n], stored[..n]);
      assert Dispatch(stored[n], start, until) == Dispatch(rules[n], start, until);
    }
  }

  /**
   * The generator with the `exclude` key read but left in the caller's
   * dictionary, so that expanding the same recurrence again gives the same
   * rule set.
   */
  method RecurringSequenceICalRestartable(recruleset: RRuleICal) returns (rset: RSet)
    modifies recruleset
    ensures rset == BuildSet(old(recruleset.start), old(recruleset.until), old(recruleset.recrule))
    ensures rset == BuildSet(recruleset.start, recruleset.until, recruleset.recrule)
    ensures |recruleset.recrule| == |old(recruleset.recrule)|
    ensures forall i :: 0 <= i < |recruleset.recrule| ==>
      recruleset.recrule[i] == StoredRestartable(old(recruleset.recrule)[i], old(recruleset.start), old(recruleset.until))
    ensures recruleset.start == old(recruleset.start) && recruleset.until == old(recruleset.until)
    ensures recruleset.dst == old(recruleset.dst) && recruleset.exclude == old(recruleset.exclude)
  {
    var rules := recruleset.recrule;
    var start, until := recruleset.start, recruleset.until;
    rset := RSet([start], [], [], []);
    var i := 0;
    while i < |rules|
      invariant 0 <= i <= |rules|
      invariant recruleset.start == start && recruleset.until == until
      invariant recruleset.dst == old(recruleset.dst) && recruleset.exclude == old(recruleset.exclude)
      invariant |recruleset.recrule| == |rules|
      invariant forall j :: 0 <= j < i ==> recruleset.recrule[j] == StoredRestartable(rules[j], start, until)
      invariant forall j :: i <= j < |rules| ==> recruleset.recrule[j] == rules[j]
      invariant rset == BuildSet(start, until, rules[..i])
    {
      ghost var rset0, e := rset, Dispatch(rules[i], start, until);
      var recrule := recruleset.recrule[i];
      var dtstart := if recrule.dtstart.Some? then recrule.dtstart.value else start;
      var ruleUntil := if recrule.until.Some? then recrule.until else until;
      var exclude := recrule.exclude.Some? && recrule.exclude.value;
      recrule := recrule.(dtstart := Some(dtstart), until := ruleUntil);
      recruleset.recrule := recruleset.recrule[i := recrule];
      if recrule.freq.None? && !exclude {
        rset := rset.(rdates := rset.rdates + [dtstart]);
      } else if recrule.freq.None? && exclude {
        rset := rset.(exdates := rset.exdates + [dtstart]);
      } else if exclude {
        rset := rset.(exrules := rset.exrules + [RRuleArgs(dtstart, ruleUntil, recrule.freq.value, recrule.extra)]);
      } else {
        rset := rset.(rrules := rset.rrules + [RRuleArgs(dtstart, ruleUntil, recrule.freq.value, recrule.extra)]);
      }
      assert rset == Add(rset0, e);
      assert rules[..i + 1][..i] == rules[..i] && rules[..i + 1][i] == rules[i];
      i := i + 1;
    }
    assert rules[..|rules|] == rules;
    RestartableBuildSet(recruleset.start, recruleset.until, rules, recruleset.recrule);
  }
}
