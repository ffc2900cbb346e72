/** Chasing references, independent of their text: what a resolver without a cycle check does in the
    long run, and how well two cycle checks predict it. */
module VarChase {
  import opened Common

  /** One step on a text: it is final, it leads to another text, or its name has no definition. */
  datatype Step = Done(value: string) | Goto(raw: string) | Stuck(name: string)

  datatype Outcome = Value(text: string) | Unresolved(name: string) | Cycle(name: string)

  /** `nameOf` is the name a text refers to, `def` the definition in force, `domain` the defined names. */
  datatype System = System(
    nameOf: string -> Option<string>,
    step: string -> Step,
    def: string -> Option<string>,
    domain: set<string>)

  /** A step through a definition depends on the name only; a step to a fallback shortens the text. */
  ghost predicate LawfulAt(sys: System, raw: string) {
    match sys.nameOf(raw)
    case None => sys.step(raw).Done?
    case Some(n) =>
      if sys.def(n).Some? then sys.step(raw) == Goto(sys.def(n).value)
      else match sys.step(raw)
        case Done(_) => false
        case Stuck(m) => m == n
        case Goto(next) => |next| < |raw|
  }

  ghost predicate Lawful(sys: System) {
    (forall n :: n in sys.domain <==> sys.def(n).Some?) && forall raw :: LawfulAt(sys, raw)
  }

  // ---- no cycle check ----

  /** Result within `fuel` steps; None is still running. */
  ghost function Unchecked(step: string -> Step, raw: string, fuel: nat): (r: Option<Outcome>)
    decreases fuel
  {
    if fuel == 0 then None
    else match step(raw)
      case Done(v) => Some(Value(v))
      case Stuck(n) => Some(Unresolved(n))
      case Goto(next) => Unchecked(step, next, fuel - 1)
  }

  /** The unchecked resolver returns `r`. */
  ghost predicate Returns(step: string -> Step, raw: string, r: Outcome) {
    exists fuel: nat :: Unchecked(step, raw, fuel) == Some(r)
  }

  /** The unchecked resolver recurses for ever. */
  ghost predicate Diverges(step: string -> Step, raw: string) {
    forall fuel: nat :: Unchecked(step, raw, fuel) == None
  }

  /** More fuel does not change a result, so at most one result is ever returned. */
  lemma {:induction false} MoreFuel(step: string -> Step, raw: string, fuel: nat, more: nat)
    requires Unchecked(step, raw, fuel).Some? && fuel <= more
    ensures Unchecked(step, raw, more) == Unchecked(step, raw, fuel)
    decreases fuel
  {
    if step(raw).Goto? { MoreFuel(step, step(raw).raw, fuel - 1, more - 1); }
  }

  lemma GotoOutcome(step: string -> Step, raw: string, next: string)
    requires step(raw) == Goto(next)
    ensures Diverges(step, next) ==> Diverges(step, raw)
    ensures forall r :: Returns(step, next, r) ==> Returns(step, raw, r)
  {
    if Diverges(step, next) {
      forall fuel: nat ensures Unchecked(step, raw, fuel) == None {
        if fuel > 0 { assert Unchecked(step, next, fuel - 1) == None; }
      }
    }
    forall r | Returns(step, next, r) ensures Returns(step, raw, r) {
      var fuel: nat :| Unchecked(step, next, fuel) == Some(r);
      assert Unchecked(step, raw, fuel + 1) == Some(r);
    }
  }

  // ---- following the text ----

  /** The text after `k` steps, while the resolver is still running. */
  ghost function Orbit(step: string -> Step, raw: string, k: nat): (r: Option<string>)
    decreases k
  {
    if k == 0 then Some(raw)
    else match step(raw)
      case Goto(next) => Orbit(step, next, k - 1)
      case _ => None
  }

  lemma {:induction false} RunningIff(step: string -> Step, raw: string, fuel: nat)
    ensures Unchecked(step, raw, fuel) == None <==> Orbit(step, raw, fuel).Some?
    decreases fuel
  {
    if fuel > 0 && step(raw).Goto? { RunningIff(step, step(raw).raw, fuel - 1); }
  }

  lemma {:induction false} OrbitAdd(step: string -> Step, raw: string, a: nat, b: nat)
    requires Orbit(step, raw, a).Some?
    ensures Orbit(step, raw, a + b) == Orbit(step, Orbit(step, raw, a).value, b)
    decreases a
  {
    if a > 0 { OrbitAdd(step, step(raw).raw, a - 1, b); }
  }

  lemma {:induction false} OrbitPrefix(step: string -> Step, raw: string, a: nat, b: nat)
    requires a <= b && Orbit(step, raw, b).Some?
    ensures Orbit(step, raw, a).Some?
    decreases a
  {
    if a > 0 { OrbitPrefix(step, step(raw).raw, a - 1, b - 1); }
  }

  lemma {:induction false} LoopForever(step: string -> Step, raw: string, period: nat, k: nat)
    requires period > 0 && Orbit(step, raw, period) == Some(raw)
    ensures Orbit(step, raw, k).Some?
    decreases k
  {
    if k < period {
      OrbitPrefix(step, raw, k, period);
    } else {
      LoopForever(step, raw, period, k - period);
      OrbitAdd(step, raw, period, k - period);
    }
  }

  /** A text that comes back to itself never settles. */
  lemma LoopDiverges(step: string -> Step, raw: string, period: nat)
    requires period > 0 && Orbit(step, raw, period) == Some(raw)
    ensures Diverges(step, raw)
  {
    forall fuel: nat ensures Unchecked(step, raw, fuel) == None {
      LoopForever(step, raw, period, fuel);
      RunningIff(step, raw, fuel);
    }
  }

  // ---- cycle checks ----

  lemma SmallerSet(a: set<string>, seen: set<string>, n: string)
    ensures n in a && n !in seen ==> |a - (seen + {n})| < |a - seen|
    ensures n !in a ==> a - (seen + {n}) == a - seen
  {
    if n in a && n !in seen {
      assert a - (seen + {n}) == (a - seen) - {n};
    }
  }

  /** The check on every name. Total on every system, cyclic ones included: a step either uses up a
      defined name not seen before or, staying at the same names, shortens the text. */
  ghost function Checked(sys: System, raw: string, seen: set<string>): (r: Outcome)
    requires Lawful(sys)
    decreases |sys.domain - seen|, |raw|
  {
    assert LawfulAt(sys, raw);
    match sys.nameOf(raw)
    case None => Value(sys.step(raw).value)
    case Some(n) =>
      if n in seen then Cycle(n)
      else
        SmallerSet(sys.domain, seen, n);
        match sys.step(raw)
        case Stuck(m) => Unresolved(m)
        case Goto(next) => Checked(sys, next, seen + {n})
  }

  /** The check restricted to defined names. */
  ghost function Lenient(sys: System, raw: string, seen: set<string>): (r: Outcome)
    requires Lawful(sys)
    decreases |sys.domain - seen|, |raw|
  {
    assert LawfulAt(sys, raw);
    match sys.nameOf(raw)
    case None => Value(sys.step(raw).value)
    case Some(n) =>
      SmallerSet(sys.domain, seen, n);
      if sys.def(n).Some? && n in seen then Cycle(n)
      else match sys.step(raw)
        case Stuck(m) => Unresolved(m)
        case Goto(next) => Lenient(sys, next, if sys.def(n).Some? then seen + {n} else seen)
  }

  ghost predicate Leads(sys: System, n: string, raw: string) {
    sys.def(n).Some? && exists k: nat :: Orbit(sys.step, sys.def(n).value, k) == Some(raw)
  }

  lemma LeadsOn(sys: System, n: string, raw: string, next: string)
    requires Leads(sys, n, raw) && sys.step(raw) == Goto(next)
    ensures Leads(sys, n, next)
  {
    var text := sys.def(n).value;
    var k: nat :| Orbit(sys.step, text, k) == Some(raw);
    OrbitAdd(sys.step, text, k, 1);
    assert Orbit(sys.step, raw, 1) == Orbit(sys.step, next, 0);
    assert Orbit(sys.step, text, k + 1) == Some(next);
  }

  /** A defined name that leads back to a text that refers to it closes a loop. */
  lemma BackToName(sys: System, raw: string, n: string)
    requires Lawful(sys) && sys.nameOf(raw) == Some(n) && Leads(sys, n, raw)
    ensures Diverges(sys.step, raw)
  {
    assert LawfulAt(sys, raw);
    var text := sys.def(n).value;
    var k: nat :| Orbit(sys.step, text, k) == Some(raw);
    OrbitAdd(sys.step, text, k, 1);
    assert Orbit(sys.step, raw, 1) == Orbit(sys.step, text, 0);
    LoopDiverges(sys.step, text, k + 1);
    GotoOutcome(sys.step, raw, text);
  }

  /** Every name seen so far leads to the current text, so seeing one again is a loop; and without
      one the resolver returns. The restricted check decides what the unchecked resolver does. */
  lemma {:induction false} LenientDecides(sys: System, raw: string, seen: set<string>)
    requires Lawful(sys)
    requires forall n :: n in seen ==> Leads(sys, n, raw)
    ensures var r := Lenient(sys, raw, seen);
            if r.Cycle? then Diverges(sys.step, raw) && sys.def(r.name).Some? else Returns(sys.step, raw, r)
    decreases |sys.domain - seen|, |raw|
  {
    assert LawfulAt(sys, raw);
    var step := sys.step(raw);
    match step
    case Done(v) => assert Unchecked(sys.step, raw, 1) == Some(Value(v));
    case Stuck(n) => assert Unchecked(sys.step, raw, 1) == Some(Unresolved(n));
    case Goto(next) =>
      var n := sys.nameOf(raw).value;
      SmallerSet(sys.domain, seen, n);
      if sys.def(n).Some? && n in seen {
        BackToName(sys, raw, n);
      } else {
        var seen' := if sys.def(n).Some? then seen + {n} else seen;
        forall m | m in seen' ensures Leads(sys, m, next) {
          if m in seen { LeadsOn(sys, m, raw, next); }
          else { assert Orbit(sys.step, sys.def(n).value, 0) == Some(next); }
        }
        LenientDecides(sys, next, seen');
        GotoOutcome(sys.step, raw, next);
      }
  }

  /** The two checks agree until an undefined name repeats. */
  lemma {:induction false} CheckedVsLenient(sys: System, raw: string, seen: set<string>)
    requires Lawful(sys)
    ensures var r := Checked(sys, raw, seen);
            r == Lenient(sys, raw, seen * sys.domain) || (r.Cycle? && sys.def(r.name).None?)
    decreases |sys.domain - seen|, |raw|
  {
    assert LawfulAt(sys, raw);
    if sys.nameOf(raw).Some? {
      var n, step := sys.nameOf(raw).value, sys.step(raw);
      SmallerSet(sys.domain, seen, n);
      if n !in seen && step.Goto? {
        CheckedVsLenient(sys, step.raw, seen + {n});
        assert (seen + {n}) * sys.domain == if sys.def(n).Some? then seen * sys.domain + {n} else seen * sys.domain;
      }
    }
  }

  /** The cycle-checked resolver refines the unchecked one. A value or an unresolved name is also what
      the unchecked resolver returns; a cycle on a defined name means it never returns. */
  lemma CheckedRefines(sys: System, raw: string)
    requires Lawful(sys)
    ensures var r := Checked(sys, raw, {});
            && (!r.Cycle? ==> Returns(sys.step, raw, r))
            && (r.Cycle? && sys.def(r.name).Some? ==> Diverges(sys.step, raw))
  {
    CheckedVsLenient(sys, raw, {});
    assert {} * sys.domain == {};
    LenientDecides(sys, raw, {});
  }

  // ---- repeated names ----

  /** The text after `k` steps refers to `n`. */
  ghost predicate Refers(sys: System, raw: string, k: nat, n: string) {
    Orbit(sys.step, raw, k).Some? && sys.nameOf(Orbit(sys.step, raw, k).value) == Some(n)
  }

  ghost predicate Occurs(sys: System, raw: string, n: string) { exists k: nat :: Refers(sys, raw, k, n) }

  /** Two texts on the way from `raw` refer to `n`. */
  ghost predicate Twice(sys: System, raw: string, n: string) {
    exists i: nat, j: nat :: i < j && Refers(sys, raw, i, n) && Refers(sys, raw, j, n)
  }

  lemma FinalRefersOnce(sys: System, raw: string)
    requires !sys.step(raw).Goto?
    ensures forall k: nat, n :: Refers(sys, raw, k, n) <==> k == 0 && sys.nameOf(raw) == Some(n)
  {
    assert forall k: nat :: k > 0 ==> Orbit(sys.step, raw, k) == None;
  }

  /** One step shifts all positions. */
  lemma RefersOn(sys: System, raw: string, next: string, m: string)
    requires sys.step(raw) == Goto(next)
    ensures Occurs(sys, raw, m) <==> sys.nameOf(raw) == Some(m) || Occurs(sys, next, m)
    ensures Twice(sys, raw, m) <==> Twice(sys, next, m) || (sys.nameOf(raw) == Some(m) && Occurs(sys, next, m))
  {
    assert forall k: nat :: Refers(sys, raw, k + 1, m) <==> Refers(sys, next, k, m);
    assert Refers(sys, raw, 0, m) <==> sys.nameOf(raw) == Some(m);
    if Occurs(sys, next, m) {
      var k: nat :| Refers(sys, next, k, m);
      assert Refers(sys, raw, k + 1, m);
    }
    if Occurs(sys, raw, m) && sys.nameOf(raw) != Some(m) {
      var k: nat :| Refers(sys, raw, k, m);
      assert Refers(sys, next, k - 1, m);
    }
    if Twice(sys, next, m) {
      var i: nat, j: nat :| i < j && Refers(sys, next, i, m) && Refers(sys, next, j, m);
      assert Refers(sys, raw, i + 1, m) && Refers(sys, raw, j + 1, m);
    }
    if Twice(sys, raw, m) {
      var i: nat, j: nat :| i < j && Refers(sys, raw, i, m) && Refers(sys, raw, j, m);
      assert Refers(sys, next, j - 1, m);
      if i > 0 { assert Refers(sys, next, i - 1, m); }
    }
  }

  /** Some name repeats, or is met although it was seen before. */
  ghost predicate Repeats(sys: System, raw: string, seen: set<string>) {
    exists n :: Twice(sys, raw, n) || (n in seen && Occurs(sys, raw, n))
  }

  lemma RepeatsOn(sys: System, raw: string, next: string, n: string, seen: set<string>)
    requires sys.step(raw) == Goto(next) && sys.nameOf(raw) == Some(n) && n !in seen
    ensures Repeats(sys, raw, seen) <==> Repeats(sys, next, seen + {n})
  {
    if Repeats(sys, raw, seen) {
      var m :| Twice(sys, raw, m) || (m in seen && Occurs(sys, raw, m));
      RefersOn(sys, raw, next, m);
      assert Twice(sys, next, m) || (m in seen + {n} && Occurs(sys, next, m));
    }
    if Repeats(sys, next, seen + {n}) {
      var m :| Twice(sys, next, m) || (m in seen + {n} && Occurs(sys, next, m));
      RefersOn(sys, raw, next, m);
      assert Twice(sys, raw, m) || (m in seen && Occurs(sys, raw, m));
    }
  }

  lemma {:induction false} CheckedRepeats(sys: System, raw: string, seen: set<string>)
    requires Lawful(sys)
    ensures Checked(sys, raw, seen).Cycle? <==> Repeats(sys, raw, seen)
    decreases |sys.domain - seen|, |raw|
  {
    assert LawfulAt(sys, raw);
    if sys.nameOf(raw).Some? && sys.nameOf(raw).value in seen {
      assert Refers(sys, raw, 0, sys.nameOf(raw).value);
    } else if sys.step(raw).Goto? {
      var n, next := sys.nameOf(raw).value, sys.step(raw).raw;
      SmallerSet(sys.domain, seen, n);
      CheckedRepeats(sys, next, seen + {n});
      RepeatsOn(sys, raw, next, n, seen);
    } else {
      FinalRefersOnce(sys, raw);
    }
  }

  /** The cycle check complains exactly if some name, defined or not, repeats on the way. */
  lemma CycleIff(sys: System, raw: string)
    requires Lawful(sys)
    ensures Checked(sys, raw, {}).Cycle? <==> exists n :: Twice(sys, raw, n)
  {
    CheckedRepeats(sys, raw, {});
  }

  /** A defined name that repeats closes a loop. */
  lemma TwiceDiverges(sys: System, raw: string, n: string)
    requires Lawful(sys) && Twice(sys, raw, n) && sys.def(n).Some?
    ensures Diverges(sys.step, raw)
  {
    var i: nat, j: nat :| i < j && Refers(sys, raw, i, n) && Refers(sys, raw, j, n);
    var a, b, text := Orbit(sys.step, raw, i).value, Orbit(sys.step, raw, j).value, sys.def(n).value;
    assert LawfulAt(sys, a) && LawfulAt(sys, b);
    OrbitAdd(sys.step, raw, i, j - i);
    assert Orbit(sys.step, a, j - i) == Orbit(sys.step, text, j - i - 1) == Some(b);
    assert Leads(sys, n, b);
    BackToName(sys, b, n);
    forall fuel: nat ensures Unchecked(sys.step, raw, fuel) == None {
      if fuel < j {
        OrbitPrefix(sys.step, raw, fuel, j);
      } else {
        RunningIff(sys.step, b, fuel - j);
        OrbitAdd(sys.step, raw, j, fuel - j);
      }
      RunningIff(sys.step, raw, fuel);
    }
  }

  lemma {:induction false} LenientRepeats(sys: System, raw: string, seen: set<string>)
    requires Lawful(sys) && Lenient(sys, raw, seen).Cycle?
    ensures var n := Lenient(sys, raw, seen).name;
            sys.def(n).Some? && (Twice(sys, raw, n) || (n in seen && Occurs(sys, raw, n)))
    decreases |sys.domain - seen|, |raw|
  {
    assert LawfulAt(sys, raw);
    var n := sys.nameOf(raw).value;
    SmallerSet(sys.domain, seen, n);
    if sys.def(n).Some? && n in seen {
      assert Refers(sys, raw, 0, n);
    } else {
      var next := sys.step(raw).raw;
      LenientRepeats(sys, next, if sys.def(n).Some? then seen + {n} else seen);
      RefersOn(sys, raw, next, Lenient(sys, raw, seen).name);
    }
  }

  lemma OneOutcome(sys: System, raw: string)
    requires Lawful(sys)
    ensures (exists r :: Returns(sys.step, raw, r)) <==> !Diverges(sys.step, raw)
  {
    LenientDecides(sys, raw, {});
  }

  /** The unchecked resolver returns exactly if every name that repeats on the way is undefined. */
  lemma ReturnsIff(sys: System, raw: string)
    requires Lawful(sys)
    ensures (exists r :: Returns(sys.step, raw, r)) <==> forall n :: Twice(sys, raw, n) ==> sys.def(n).None?
  {
    OneOutcome(sys, raw);
    LenientDecides(sys, raw, {});
    if Lenient(sys, raw, {}).Cycle? {
      LenientRepeats(sys, raw, {});
    }
    forall n | Twice(sys, raw, n) && sys.def(n).Some? ensures Diverges(sys.step, raw) { TwiceDiverges(sys, raw, n); }
  }

  /** The check reports a cycle exactly when the unchecked resolver never returns, except exactly when
      names repeat on the way and all of them are undefined; the way then ends. */
  lemma FalseCycleIff(sys: System, raw: string)
    requires Lawful(sys)
    ensures (Checked(sys, raw, {}).Cycle? <==> Diverges(sys.step, raw))
            <==> !((exists n :: Twice(sys, raw, n)) && forall n :: Twice(sys, raw, n) ==> sys.def(n).None?)
    ensures forall r, n :: Returns(sys.step, raw, r) && Twice(sys, raw, n) ==> sys.def(n).None?
  {
    CycleIff(sys, raw);
    ReturnsIff(sys, raw);
    OneOutcome(sys, raw);
  }

  /** Wherever an undefined name repeats, however far apart, the check reports a cycle; the unchecked
      resolver returns all the same, unless some defined name repeats too. */
  lemma UndefinedRepeat(sys: System, raw: string, n: string)
    requires Lawful(sys) && sys.def(n).None? && Twice(sys, raw, n)
    ensures Checked(sys, raw, {}).Cycle?
    ensures (exists r :: Returns(sys.step, raw, r)) <==> !exists m :: Twice(sys, raw, m) && sys.def(m).Some?
  {
    CycleIff(sys, raw);
    ReturnsIff(sys, raw);
  }

  // ---- the same texts under another resolver ----

  /** `f` steps like the system on every text on the way from `raw`. */
  ghost predicate StepsAlong(sys: System, f: string -> Step, raw: string) {
    forall k: nat :: Orbit(sys.step, raw, k).Some?
      ==> f(Orbit(sys.step, raw, k).value) == sys.step(Orbit(sys.step, raw, k).value)
  }

  lemma {:induction false} SameRuns(sys: System, f: string -> Step, raw: string, fuel: nat)
    requires StepsAlong(sys, f, raw)
    ensures Unchecked(f, raw, fuel) == Unchecked(sys.step, raw, fuel)
    decreases fuel
  {
    if fuel > 0 {
      assert Orbit(sys.step, raw, 0) == Some(raw);
      if sys.step(raw).Goto? {
        var next := sys.step(raw).raw;
        forall k: nat | Orbit(sys.step, next, k).Some?
          ensures f(Orbit(sys.step, next, k).value) == sys.step(Orbit(sys.step, next, k).value)
        {
          assert Orbit(sys.step, raw, k + 1) == Orbit(sys.step, next, k);
        }
        SameRuns(sys, f, next, fuel - 1);
      }
    }
  }

  /** So the check refines `f` as well. */
  lemma RefinesAlong(sys: System, f: string -> Step, raw: string)
    requires Lawful(sys) && StepsAlong(sys, f, raw)
    ensures forall fuel: nat :: Unchecked(f, raw, fuel) == Unchecked(sys.step, raw, fuel)
    ensures var r := Checked(sys, raw, {});
            && (!r.Cycle? ==> Returns(f, raw, r))
            && (r.Cycle? && sys.def(r.name).Some? ==> Diverges(f, raw))
  {
    forall fuel: nat ensures Unchecked(f, raw, fuel) == Unchecked(sys.step, raw, fuel) { SameRuns(sys, f, raw, fuel); }
    CheckedRefines(sys, raw);
    var r := Checked(sys, raw, {});
    if !r.Cycle? {
      var fuel: nat :| Unchecked(sys.step, raw, fuel) == Some(r);
      assert Unchecked(f, raw, fuel) == Some(r);
    }
  }
}
