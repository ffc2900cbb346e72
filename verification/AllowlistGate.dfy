/** The accessibility gate: validation of the allowlist, first-match charging with per-entry counters
    and caps, and the closed form of the failures that a run of violations leaves. */
module AllowlistGate {
  import opened Common
  import opened JsText
  import opened AllowlistEntry

  /** What the gate takes from the JavaScript engine. `toNumber` is the floor of the number a string
      converts to; None stands for NaN and +Infinity, which no counter exceeds. */
  datatype Engine = Engine(
    compiles: string -> bool,
    test: (string, string) -> bool,
    toNumber: string -> Option<int>)

  // ---- validation of the parsed entries ----

  datatype Refusal = MissingField | NeedsSelector | BothSelectors | NeedsCountMax | BadPattern | Expired

  datatype LoadError = BadToday | Refused(index: nat, why: Refusal)

  /** An accepted entry; `pattern` is the precompiled regular expression, if any. */
  datatype Rule = Rule(entry: Entry, pattern: Option<string>)

  predicate NonEmptyString(v: Value) { v.Str? && v.s != "" }

  predicate DateShaped(s: string) {
    && |s| == 10 && s[4] == '-' && s[7] == '-'
    && AllDigits(s[..4]) && AllDigits(s[5..7]) && AllDigits(s[8..])
  }

  /** The policy an entry has to meet, independent of the order in which it is checked. */
  predicate Acceptable(engine: Engine, e: Entry, today: string) {
    var selector, pattern := Field(e, "selector"), Field(e, "selector_pattern");
    && (forall k :: k in ["route", "rule", "issue", "expires_at"] ==> Truthy(Field(e, k)))
    && (NonEmptyString(selector) <==> !NonEmptyString(pattern))
    && (NonEmptyString(pattern) ==>
          && Field(e, "count_max").Int? && Field(e, "count_max").n > 0
          && engine.compiles(pattern.s))
    && !LexLeq(AsString(Field(e, "expires_at")), today)
  }

  /** The checks in source order; None means accepted. */
  function Refuse(engine: Engine, e: Entry, today: string): (why: Option<Refusal>)
    ensures why == None <==> Acceptable(engine, e, today)
  {
    var hasSelector := NonEmptyString(Field(e, "selector"));
    var hasPattern := NonEmptyString(Field(e, "selector_pattern"));
    var countMax := Field(e, "count_max");
    if !Truthy(Field(e, "route")) || !Truthy(Field(e, "rule"))
       || !Truthy(Field(e, "issue")) || !Truthy(Field(e, "expires_at")) then Some(MissingField)
    else if !hasSelector && !hasPattern then Some(NeedsSelector)
    else if hasSelector && hasPattern then Some(BothSelectors)
    else if hasPattern && (!countMax.Int? || countMax.n <= 0) then Some(NeedsCountMax)
    else if hasPattern && !engine.compiles(Field(e, "selector_pattern").s) then Some(BadPattern)
    else if LexLeq(AsString(Field(e, "expires_at")), today) then Some(Expired)
    else None
  }

  function Accept(e: Entry): (r: Rule) {
    var pattern := Field(e, "selector_pattern");
    Rule(e, if NonEmptyString(pattern) then Some(pattern.s) else None)
  }

  /** The loop of the validator, for any check. */
  method RefuseFirst(entries: seq<Entry>, check: Entry -> Option<Refusal>) returns (r: Result<seq<Rule>, LoadError>)
    ensures r.Ok? <==> forall i :: 0 <= i < |entries| ==> check(entries[i]).None?
    ensures r.Ok? ==> |r.value| == |entries| && forall i :: 0 <= i < |entries| ==> r.value[i] == Accept(entries[i])
    ensures r.Err? ==>
              && r.error.Refused? && r.error.index < |entries|
              && check(entries[r.error.index]) == Some(r.error.why)
              && forall j :: 0 <= j < r.error.index ==> check(entries[j]).None?
  {
    var valid: seq<Rule> := [];
    for i := 0 to |entries|
      invariant forall j :: 0 <= j < i ==> check(entries[j]).None?
      invariant |valid| == i && forall j :: 0 <= j < i ==> valid[j] == Accept(entries[j])
    {
      var why := check(entries[i]);
      if why.Some? { return Err(Refused(i, why.value)); }
      valid := valid + [Accept(entries[i])];
    }
    return Ok(valid);
  }

  /** Hard validation: one bad entry refuses the whole list, and the first one is reported. */
  method FilterAllowlist(engine: Engine, entries: seq<Entry>, today: string)
    returns (r: Result<seq<Rule>, LoadError>)
    ensures r.Ok? <==> DateShaped(today) && forall i :: 0 <= i < |entries| ==> Acceptable(engine, entries[i], today)
    ensures r.Ok? ==> |r.value| == |entries| && forall i :: 0 <= i < |entries| ==> r.value[i] == Accept(entries[i])
    ensures r.Err? && r.error.Refused? ==>
              && r.error.index < |entries|
              && Refuse(engine, entries[r.error.index], today) == Some(r.error.why)
              && forall j :: 0 <= j < r.error.index ==> Acceptable(engine, entries[j], today)
  {
    if !DateShaped(today) { return Err(BadToday); }
    r := RefuseFirst(entries, e => Refuse(engine, e, today));
  }

  /** An accepted entry's expiry date comes after today as text: a string as it is, an integer by its digits. */
  lemma ExpiryText(engine: Engine, e: Entry, today: string)
    requires Acceptable(engine, e, today)
    ensures var v := Field(e, "expires_at");
            && v != Null && v != Bool(false) && v != Int(0) && v != Str("")
            && (v.Str? ==> !LexLeq(v.s, today)) && (v.Int? ==> !LexLeq(Decimal(v.n), today))
            && (v.Bool? ==> !LexLeq("true", today))
  {
    assert Truthy(Field(e, "expires_at")) by { assert "expires_at" in ["route", "rule", "issue", "expires_at"]; }
  }

  /** An expiry written as a number is judged like the same digits written as text. */
  lemma NumberExpiryAlike(engine: Engine, e: Entry, n: int, today: string)
    requires n != 0 && Decimal(n) != ""
    ensures Acceptable(engine, e["expires_at" := Int(n)], today)
            <==> Acceptable(engine, e["expires_at" := Str(Decimal(n))], today)
  {
    var a, b := e["expires_at" := Int(n)], e["expires_at" := Str(Decimal(n))];
    assert "expires_at" != "selector" && "expires_at" != "selector_pattern" && "expires_at" != "count_max";
    forall k | k != "expires_at" ensures Field(a, k) == Field(b, k) {}
    forall k ensures Truthy(Field(a, k)) == Truthy(Field(b, k)) {}
  }

  /** On dates, the test for expiry compares year, month and day as numbers; the day itself is too late. */
  lemma ExpiryIsChronological(expires: string, today: string)
    requires DateShaped(expires) && DateShaped(today)
    ensures var (y, m, d) := DateNumbers(expires);
            var (y0, m0, d0) := DateNumbers(today);
            !LexLeq(expires, today) <==> y > y0 || (y == y0 && (m > m0 || (m == m0 && d > d0)))
  {
    var a, b := expires, today;
    assert a == a[..4] + (['-'] + (a[5..7] + (['-'] + a[8..]))) && b == b[..4] + (['-'] + (b[5..7] + (['-'] + b[8..])));
    LexLeqParts(a[..4], b[..4], ['-'] + (a[5..7] + (['-'] + a[8..])), ['-'] + (b[5..7] + (['-'] + b[8..])));
    LexLeqAfter(['-'], a[5..7] + (['-'] + a[8..]), b[5..7] + (['-'] + b[8..]));
    LexLeqParts(a[5..7], b[5..7], ['-'] + a[8..], ['-'] + b[8..]);
    LexLeqAfter(['-'], a[8..], b[8..]);
    LexLeqDigits(a[..4], b[..4]);
    LexLeqDigits(a[5..7], b[5..7]);
    LexLeqDigits(a[8..], b[8..]);
  }

  function DateNumbers(s: string): (ymd: (nat, nat, nat))
    requires DateShaped(s)
  {
    (ParseNat(s[..4]), ParseNat(s[5..7]), ParseNat(s[8..]))
  }

  // ---- matching one violation ----

  /** An axe target: a selector, or a list of parts of which the non-strings are None. */
  datatype Target = Selector(s: string) | Path(parts: seq<Option<string>>)

  datatype Violation = Violation(route: string, rule: string, targets: seq<Target>)

  datatype Match = NotAllowed | Allowed(index: nat, overflow: bool)

  function Flat(targets: seq<Target>): (r: seq<Option<string>>) {
    if targets == [] then []
    else (match targets[0] case Selector(s) => [Some(s)] case Path(parts) => parts) + Flat(targets[1..])
  }

  predicate HitsTarget(engine: Engine, rule: Rule, t: Option<string>) {
    && t.Some?
    && (|| (Truthy(Field(rule.entry, "selector")) && Field(rule.entry, "selector") == Str(t.value))
        || (rule.pattern.Some? && engine.test(rule.pattern.value, t.value)))
  }

  predicate SameSite(rule: Rule, v: Violation) {
    Field(rule.entry, "route") == Str(v.route) && Field(rule.entry, "rule") == Str(v.rule)
  }

  predicate Covers(engine: Engine, rule: Rule, v: Violation) {
    SameSite(rule, v) && exists t :: t in Flat(v.targets) && HitsTarget(engine, rule, t)
  }

  /** The entry a violation is charged to: the first one that covers it. */
  ghost function FirstMatch(engine: Engine, rules: seq<Rule>, v: Violation): (first: Option<nat>)
    ensures first.Some? ==> first.value < |rules| && Covers(engine, rules[first.value], v)
    ensures forall j :: 0 <= j < |rules| && (first.Some? ==> j < first.value) ==> !Covers(engine, rules[j], v)
  {
    if rules == [] then None
    else
      var front := FirstMatch(engine, rules[..|rules| - 1], v);
      if front.Some? then front
      else if Covers(engine, rules[|rules| - 1], v) then Some(|rules| - 1)
      else None
  }

  // ---- coverage read off the parsed entry ----

  /** The entry's own selector is the text, or its pattern matches it. */
  predicate HitsText(engine: Engine, e: Entry, s: string) {
    || (s != "" && Field(e, "selector") == Str(s))
    || (NonEmptyString(Field(e, "selector_pattern")) && engine.test(Field(e, "selector_pattern").s, s))
  }

  /** Same route, same rule, and some string among the targets, or among the parts of one, is hit. */
  ghost predicate EntryCovers(engine: Engine, e: Entry, v: Violation) {
    && Field(e, "route") == Str(v.route) && Field(e, "rule") == Str(v.rule)
    && exists i :: 0 <= i < |v.targets| && TargetHit(engine, e, v.targets[i])
  }

  ghost predicate TargetHit(engine: Engine, e: Entry, t: Target) {
    match t
    case Selector(s) => HitsText(engine, e, s)
    case Path(parts) => exists j :: 0 <= j < |parts| && parts[j].Some? && HitsText(engine, e, parts[j].value)
  }

  lemma {:induction false} FlatIff(targets: seq<Target>, s: string)
    ensures Some(s) in Flat(targets) <==> exists i :: 0 <= i < |targets| && InTarget(targets[i], s)
  {
    if targets != [] {
      FlatIff(targets[1..], s);
      if InTarget(targets[0], s) { assert Some(s) in Flat(targets); }
      if i :| 0 <= i < |targets[1..]| && InTarget(targets[1..][i], s) { assert InTarget(targets[i + 1], s); }
      if i :| 0 <= i < |targets| && InTarget(targets[i], s) {
        if i > 0 { assert InTarget(targets[1..][i - 1], s); }
      }
    }
  }

  ghost predicate InTarget(t: Target, s: string) {
    match t
    case Selector(x) => x == s
    case Path(parts) => exists j :: 0 <= j < |parts| && parts[j] == Some(s)
  }

  lemma HitTarget(engine: Engine, e: Entry, t: Target)
    ensures TargetHit(engine, e, t) <==> exists s :: InTarget(t, s) && HitsText(engine, e, s)
  {
    match t
    case Selector(s) => if TargetHit(engine, e, t) { assert InTarget(t, s); }
    case Path(parts) =>
      if TargetHit(engine, e, t) {
        var j :| 0 <= j < |parts| && parts[j].Some? && HitsText(engine, e, parts[j].value);
        assert InTarget(t, parts[j].value);
      }
  }

  lemma AcceptedHits(engine: Engine, e: Entry, today: string, t: Option<string>)
    requires Acceptable(engine, e, today)
    ensures HitsTarget(engine, Accept(e), t) <==> t.Some? && HitsText(engine, e, t.value)
  {
  }

  /** An accepted entry covers a violation exactly as its parsed fields say. */
  lemma AcceptedCovers(engine: Engine, e: Entry, today: string, v: Violation)
    requires Acceptable(engine, e, today)
    ensures Covers(engine, Accept(e), v) <==> EntryCovers(engine, e, v)
  {
    var flat := Flat(v.targets);
    if t :| t in flat && HitsTarget(engine, Accept(e), t) {
      AcceptedHits(engine, e, today, t);
      FlatIff(v.targets, t.value);
      var i :| 0 <= i < |v.targets| && InTarget(v.targets[i], t.value);
      HitTarget(engine, e, v.targets[i]);
    }
    if i :| 0 <= i < |v.targets| && TargetHit(engine, e, v.targets[i]) {
      HitTarget(engine, e, v.targets[i]);
      var s :| InTarget(v.targets[i], s) && HitsText(engine, e, s);
      FlatIff(v.targets, s);
      AcceptedHits(engine, e, today, Some(s));
    }
  }

  /** The entry a violation belongs to: it covers the violation and no earlier entry does. */
  ghost predicate FirstCover(engine: Engine, entries: seq<Entry>, v: Violation, i: nat) {
    && i < |entries| && EntryCovers(engine, entries[i], v)
    && forall j :: 0 <= j < i ==> !EntryCovers(engine, entries[j], v)
  }

  /** The rules of accepted entries. */
  ghost predicate RulesFor(engine: Engine, entries: seq<Entry>, today: string, rules: seq<Rule>) {
    && |rules| == |entries|
    && forall i :: 0 <= i < |entries| ==> Acceptable(engine, entries[i], today) && rules[i] == Accept(entries[i])
  }

  lemma ChargedIff(engine: Engine, entries: seq<Entry>, today: string, rules: seq<Rule>, v: Violation, i: nat)
    requires RulesFor(engine, entries, today, rules)
    ensures ChargedTo(engine, rules, v, i) <==> FirstCover(engine, entries, v, i)
  {
    forall k | 0 <= k < |rules| ensures Covers(engine, rules[k], v) <==> EntryCovers(engine, entries[k], v) {
      AcceptedCovers(engine, entries[k], today, v);
    }
  }

  lemma UncoveredIff(engine: Engine, entries: seq<Entry>, today: string, rules: seq<Rule>, v: Violation)
    requires RulesFor(engine, entries, today, rules)
    ensures Uncovered(engine, rules, v) <==> forall e :: e in entries ==> !EntryCovers(engine, e, v)
  {
    forall k | 0 <= k < |rules| ensures Covers(engine, rules[k], v) <==> EntryCovers(engine, entries[k], v) {
      AcceptedCovers(engine, entries[k], today, v);
      assert rules[k] in rules && entries[k] in entries;
    }
  }

  /** `n > v` with JavaScript's conversions. */
  predicate Exceeds(engine: Engine, n: nat, v: Value) {
    match v
    case Null => n > 0
    case Bool(b) => n > (if b then 1 else 0)
    case Int(k) => n > k
    case Str(s) => engine.toNumber(s).Some? && n > engine.toNumber(s).value
  }

  /** `count_max && n > count_max`. */
  predicate Overflows(engine: Engine, e: Entry, n: nat) {
    var countMax := Field(e, "count_max");
    Truthy(countMax) && Exceeds(engine, n, countMax)
  }

  /** How many violations an entry absorbs; None is without limit. An absent or zero `count_max`
      means no cap, a negative one caps at zero, and `true` caps at one. */
  function Cap(engine: Engine, e: Entry): (cap: Option<nat>)
    ensures forall n: nat :: n >= 1 ==> (Overflows(engine, e, n) <==> cap.Some? && n > cap.value)
  {
    match Field(e, "count_max")
    case Null => None
    case Bool(b) => if b then Some(1) else None
    case Int(k) => if k == 0 then None else Some(if k < 0 then 0 else k)
    case Str(s) =>
      if s == "" then None
      else match engine.toNumber(s)
        case None => None
        case Some(k) => Some(if k < 0 then 0 else k)
  }

  // ---- what a run of violations does to the counters ----

  datatype Progress = Progress(counts: seq<nat>, suppressed: nat, net: nat)

  /** Charge one violation. */
  ghost function Account(engine: Engine, rules: seq<Rule>, p: Progress, v: Violation): (q: Progress)
    requires |p.counts| == |rules|
    ensures |q.counts| == |rules|
    ensures q.suppressed + q.net == p.suppressed + p.net + 1
  {
    match FirstMatch(engine, rules, v)
    case None => p.(net := p.net + 1)
    case Some(i) =>
      var n := p.counts[i] + 1;
      var bumped := p.(counts := p.counts[i := n]);
      if Overflows(engine, rules[i].entry, n) then bumped.(net := p.net + 1)
      else bumped.(suppressed := p.suppressed + 1)
  }

  ghost function After(engine: Engine, rules: seq<Rule>, p: Progress, vs: seq<Violation>): (q: Progress)
    requires |p.counts| == |rules|
    ensures |q.counts| == |rules|
    ensures q.suppressed + q.net == p.suppressed + p.net + |vs|
  {
    if vs == [] then p
    else Account(engine, rules, After(engine, rules, p, vs[..|vs| - 1]), vs[|vs| - 1])
  }

  lemma {:induction false} AfterAppend(engine: Engine, rules: seq<Rule>, p: Progress,
                                       a: seq<Violation>, b: seq<Violation>)
    requires |p.counts| == |rules|
    ensures After(engine, rules, p, a + b) == After(engine, rules, After(engine, rules, p, a), b)
  {
    if b == [] {
      assert a + b == a;
    } else {
      assert (a + b)[..|a + b| - 1] == a + b[..|b| - 1];
      AfterAppend(engine, rules, p, a, b[..|b| - 1]);
    }
  }

  /** The counters evolve independently of the two tallies. */
  lemma {:induction false} AfterShift(engine: Engine, rules: seq<Rule>, p: Progress, vs: seq<Violation>)
    requires |p.counts| == |rules|
    ensures var q, q0 := After(engine, rules, p, vs), After(engine, rules, Progress(p.counts, 0, 0), vs);
            q == Progress(q0.counts, p.suppressed + q0.suppressed, p.net + q0.net)
  {
    if vs != [] {
      AfterShift(engine, rules, p, vs[..|vs| - 1]);
    }
  }

  // ---- the closed form ----

  ghost function Excess(n: nat, cap: Option<nat>): (x: nat) {
    if cap.Some? && n > cap.value then n - cap.value else 0
  }

  ghost function TotalExcess(engine: Engine, rules: seq<Rule>, counts: seq<nat>): (x: nat)
    requires |counts| == |rules|
  {
    if rules == [] then 0
    else TotalExcess(engine, rules[..|rules| - 1], counts[..|rules| - 1])
         + Excess(counts[|rules| - 1], Cap(engine, rules[|rules| - 1].entry))
  }

  ghost predicate ChargedTo(engine: Engine, rules: seq<Rule>, v: Violation, i: nat) {
    FirstMatch(engine, rules, v) == Some(i)
  }

  /** Violations whose first matching entry is entry `i`. */
  ghost function Charged(engine: Engine, rules: seq<Rule>, vs: seq<Violation>, i: nat): (n: nat) {
    CountIf(vs, v => ChargedTo(engine, rules, v, i))
  }

  ghost predicate Uncovered(engine: Engine, rules: seq<Rule>, v: Violation) {
    forall r :: r in rules ==> !Covers(engine, r, v)
  }

  ghost function ChargedCounts(engine: Engine, rules: seq<Rule>, vs: seq<Violation>): (counts: seq<nat>)
    ensures |counts| == |rules|
  {
    seq(|rules|, i requires 0 <= i < |rules| => Charged(engine, rules, vs, i))
  }

  /** (violations no entry covers) + sum over entries of max(0, charged - cap). */
  ghost function NetOf(engine: Engine, rules: seq<Rule>, vs: seq<Violation>): (n: nat) {
    CountIf(vs, v => Uncovered(engine, rules, v))
    + TotalExcess(engine, rules, ChargedCounts(engine, rules, vs))
  }

  ghost function Fresh(rules: seq<Rule>): (p: Progress)
    ensures |p.counts| == |rules|
  {
    Progress(seq(|rules|, _ => 0), 0, 0)
  }

  lemma {:induction false} ExcessZero(engine: Engine, rules: seq<Rule>)
    ensures TotalExcess(engine, rules, Fresh(rules).counts) == 0
  {
    if rules != [] {
      assert Fresh(rules).counts[..|rules| - 1] == Fresh(rules[..|rules| - 1]).counts;
      ExcessZero(engine, rules[..|rules| - 1]);
    }
  }

  lemma {:induction false} ExcessBump(engine: Engine, rules: seq<Rule>, counts: seq<nat>, i: nat)
    requires |counts| == |rules| && i < |rules|
    ensures TotalExcess(engine, rules, counts[i := counts[i] + 1])
            == TotalExcess(engine, rules, counts) + (if Overflows(engine, rules[i].entry, counts[i] + 1) then 1 else 0)
  {
    var last := |rules| - 1;
    var bumped := counts[i := counts[i] + 1];
    if i == last {
      assert bumped[..last] == counts[..last];
    } else {
      assert bumped[..last] == counts[..last][i := counts[i] + 1];
      ExcessBump(engine, rules[..last], counts[..last], i);
    }
  }

  /** One more violation adds a failure exactly if it is uncovered or its entry is then over its cap. */
  lemma NetStep(engine: Engine, rules: seq<Rule>, front: seq<Violation>, v: Violation)
    ensures var before, first := ChargedCounts(engine, rules, front), FirstMatch(engine, rules, v);
            var fails := first.None? || Overflows(engine, rules[first.value].entry, before[first.value] + 1);
            NetOf(engine, rules, front + [v]) == NetOf(engine, rules, front) + (if fails then 1 else 0)
  {
    UncoveredStep(engine, rules, front, v);
    ExcessStep(engine, rules, front, v);
  }

  lemma UncoveredStep(engine: Engine, rules: seq<Rule>, front: seq<Violation>, v: Violation)
    ensures CountIf(front + [v], v => Uncovered(engine, rules, v))
            == CountIf(front, v => Uncovered(engine, rules, v)) + if FirstMatch(engine, rules, v).None? then 1 else 0
  {
    ChargedStep(engine, rules, front, v);
    assert (front + [v])[..|front|] == front;
  }

  lemma ExcessStep(engine: Engine, rules: seq<Rule>, front: seq<Violation>, v: Violation)
    ensures var before, first := ChargedCounts(engine, rules, front), FirstMatch(engine, rules, v);
            TotalExcess(engine, rules, ChargedCounts(engine, rules, front + [v]))
            == TotalExcess(engine, rules, before)
               + if first.Some? && Overflows(engine, rules[first.value].entry, before[first.value] + 1) then 1 else 0
  {
    ChargedStep(engine, rules, front, v);
    var first := FirstMatch(engine, rules, v);
    if first.Some? { ExcessBump(engine, rules, ChargedCounts(engine, rules, front), first.value); }
  }

  /** The run has reached the closed form. */
  ghost predicate AtClosedForm(engine: Engine, rules: seq<Rule>, vs: seq<Violation>, p: Progress) {
    p.counts == ChargedCounts(engine, rules, vs) && p.net == NetOf(engine, rules, vs)
  }

  lemma ClosedStep(engine: Engine, rules: seq<Rule>, front: seq<Violation>, v: Violation, p: Progress)
    requires |p.counts| == |rules| && AtClosedForm(engine, rules, front, p)
    ensures AtClosedForm(engine, rules, front + [v], Account(engine, rules, p, v))
  {
    ChargedStep(engine, rules, front, v);
    NetStep(engine, rules, front, v);
  }

  /** Although matching mutates counters as it goes, a run from fresh counters ends with the
      closed-form count of failures, and each counter holds what is charged to its entry. */
  lemma {:induction false} NetClosedForm(engine: Engine, rules: seq<Rule>, vs: seq<Violation>)
    ensures After(engine, rules, Fresh(rules), vs).counts == ChargedCounts(engine, rules, vs)
    ensures After(engine, rules, Fresh(rules), vs).net == NetOf(engine, rules, vs)
  {
    if vs == [] {
      assert Fresh(rules).counts == ChargedCounts(engine, rules, vs);
      ExcessZero(engine, rules);
    } else {
      var front, v := vs[..|vs| - 1], vs[|vs| - 1];
      assert vs == front + [v];
      NetClosedForm(engine, rules, front);
      ClosedStep(engine, rules, front, v, After(engine, rules, Fresh(rules), front));
    }
  }

  /** One more violation either is uncovered or raises the count of exactly one entry. */
  lemma ChargedStep(engine: Engine, rules: seq<Rule>, front: seq<Violation>, v: Violation)
    ensures var before, after := ChargedCounts(engine, rules, front), ChargedCounts(engine, rules, front + [v]);
            match FirstMatch(engine, rules, v)
            case None => after == before && Uncovered(engine, rules, v)
            case Some(i) => after == before[i := before[i] + 1] && !Uncovered(engine, rules, v)
  {
    assert (front + [v])[..|front|] == front;
    var first := FirstMatch(engine, rules, v);
    if first.Some? {
      assert rules[first.value] in rules;
    }
  }

  lemma NetPermutation(engine: Engine, rules: seq<Rule>, a: seq<Violation>, b: seq<Violation>)
    requires multiset(a) == multiset(b)
    ensures ChargedCounts(engine, rules, a) == ChargedCounts(engine, rules, b)
    ensures NetOf(engine, rules, a) == NetOf(engine, rules, b)
  {
    CountIfPermutation(a, b, v => Uncovered(engine, rules, v));
    forall i | 0 <= i < |rules|
      ensures Charged(engine, rules, a, i) == Charged(engine, rules, b, i)
    {
      CountIfPermutation(a, b, v => ChargedTo(engine, rules, v, i));
    }
    assert ChargedCounts(engine, rules, a) == ChargedCounts(engine, rules, b);
  }

  lemma {:induction false} ExcessNone(engine: Engine, rules: seq<Rule>, counts: seq<nat>)
    requires |counts| == |rules|
    ensures TotalExcess(engine, rules, counts) == 0
            <==> forall i :: 0 <= i < |rules| ==> Excess(counts[i], Cap(engine, rules[i].entry)) == 0
  {
    if rules != [] {
      ExcessNone(engine, rules[..|rules| - 1], counts[..|rules| - 1]);
    }
  }
}
