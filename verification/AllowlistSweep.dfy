/** One run of the accessibility gate: every viewport x theme x route is scanned, all cells share the
    allowlist's counters, and the verdict combines the failures with the stale-entry report. */
module AllowlistSweep {
  import opened Common
  import opened AllowlistEntry
  import opened AllowlistGate

  datatype Finding = Finding(id: string, nodes: seq<seq<Target>>)

  /** What the browser returned for one cell; a probe fails before anything is counted. */
  datatype Probe = ProbeFailed | Scanned(findings: seq<Finding>)

  datatype Viewport = Viewport(name: string, rules: seq<string>)

  datatype Cell = Cell(viewport: Viewport, theme: string, route: string, probe: Probe)

  datatype Tally = Tally(raw: nat, suppressed: nat, net: nat)

  const ZERO := Tally(0, 0, 0)

  function Plus(a: Tally, b: Tally): (t: Tally) {
    Tally(a.raw + b.raw, a.suppressed + b.suppressed, a.net + b.net)
  }

  // ---- the violations a sweep counts, in sweep order ----

  ghost function NodeViolations(route: string, id: string, nodes: seq<seq<Target>>): (vs: seq<Violation>) {
    seq(|nodes|, i requires 0 <= i < |nodes| => Violation(route, id, nodes[i]))
  }

  ghost function FindingViolations(route: string, rules: seq<string>, f: Finding): (vs: seq<Violation>) {
    if f.id in rules then NodeViolations(route, f.id, f.nodes) else []
  }

  ghost function CellViolations(c: Cell): (vs: seq<Violation>) {
    match c.probe
    case ProbeFailed => []
    case Scanned(findings) => FlatMap(findings, f => FindingViolations(c.route, c.viewport.rules, f))
  }

  ghost function AllViolations(cells: seq<Cell>): (vs: seq<Violation>) {
    FlatMap(cells, c => CellViolations(c))
  }

  predicate IsFailed(c: Cell) { c.probe.ProbeFailed? }

  ghost function FailedProbes(cells: seq<Cell>): (n: nat) { CountIf(cells, IsFailed) }

  // ---- what the sweep accumulates ----

  datatype SweepState = SweepState(counts: seq<nat>, summary: seq<Tally>, totalNet: nat, byViewport: map<string, Tally>)

  ghost function CellProgress(engine: Engine, rules: seq<Rule>, counts: seq<nat>, c: Cell): (p: Progress)
    requires |counts| == |rules|
    ensures |p.counts| == |rules|
    ensures p.suppressed + p.net == |CellViolations(c)|
  {
    After(engine, rules, Progress(counts, 0, 0), CellViolations(c))
  }

  ghost function CellTally(engine: Engine, rules: seq<Rule>, counts: seq<nat>, c: Cell): (t: Tally)
    requires |counts| == |rules|
  {
    if IsFailed(c) then Tally(0, 0, 1)
    else
      var p := CellProgress(engine, rules, counts, c);
      Tally(|CellViolations(c)|, p.suppressed, p.net)
  }

  ghost predicate Ready(rules: seq<Rule>, st: SweepState, c: Cell) {
    |st.counts| == |rules| && c.viewport.name in st.byViewport
  }

  ghost function SweepCell(engine: Engine, rules: seq<Rule>, st: SweepState, c: Cell): (st': SweepState)
    ensures |st'.counts| == |st.counts| && st'.byViewport.Keys == st.byViewport.Keys
  {
    if !Ready(rules, st, c) then st
    else
      var t := CellTally(engine, rules, st.counts, c);
      SweepState(CellProgress(engine, rules, st.counts, c).counts, st.summary + [t], st.totalNet + t.net,
                 st.byViewport[c.viewport.name := Plus(st.byViewport[c.viewport.name], t)])
  }

  ghost function Step(engine: Engine, rules: seq<Rule>): (step: (SweepState, Cell) -> SweepState) {
    (st, c) => SweepCell(engine, rules, st, c)
  }

  /** The state after visiting the cells in order. */
  ghost function SweepAll(engine: Engine, rules: seq<Rule>, st: SweepState, cells: seq<Cell>): (st': SweepState) {
    Fold(Step(engine, rules), st, cells)
  }

  lemma {:induction false} SweepKeeps(engine: Engine, rules: seq<Rule>, st: SweepState, cells: seq<Cell>)
    ensures var st' := SweepAll(engine, rules, st, cells);
            |st'.counts| == |st.counts| && st'.byViewport.Keys == st.byViewport.Keys
  {
    if cells != [] { SweepKeeps(engine, rules, st, cells[..|cells| - 1]); }
  }

  ghost function Begin(counts: seq<nat>, names: seq<string>): (st: SweepState) {
    SweepState(counts, [], 0, map n | n in names :: ZERO)
  }

  // ---- the order of the cells ----

  type Prober = (Viewport, string, string) -> Probe

  ghost function RouteCells(vp: Viewport, theme: string, routes: seq<string>, probe: Prober): (cells: seq<Cell>)
    ensures forall c :: c in cells ==> c.viewport == vp
  {
    seq(|routes|, i requires 0 <= i < |routes| => Cell(vp, theme, routes[i], probe(vp, theme, routes[i])))
  }

  ghost function ThemeCells(vp: Viewport, themes: seq<string>, routes: seq<string>, probe: Prober): (cells: seq<Cell>)
    ensures forall c :: c in cells ==> c.viewport == vp
  {
    if themes == [] then []
    else ThemeCells(vp, themes[..|themes| - 1], routes, probe) + RouteCells(vp, themes[|themes| - 1], routes, probe)
  }

  ghost function Grid(
      viewports: seq<Viewport>, themes: seq<string>, routes: seq<string>, probe: Prober): (cells: seq<Cell>)
    ensures forall c :: c in cells ==> c.viewport in viewports
  {
    if viewports == [] then []
    else Grid(viewports[..|viewports| - 1], themes, routes, probe)
         + ThemeCells(viewports[|viewports| - 1], themes, routes, probe)
  }

  function Names(viewports: seq<Viewport>): (names: seq<string>) {
    seq(|viewports|, i requires 0 <= i < |viewports| => viewports[i].name)
  }

  // ---- the gate object ----

  datatype Verdict = Pass | FailViolations | FailStale

  class Gate {
    const engine: Engine
    const rules: seq<Rule>
    var counts: seq<nat>
    var summary: seq<Tally>
    var totalNet: nat
    var byViewport: map<string, Tally>

    ghost predicate Valid() reads this { |counts| == |rules| }

    ghost function State(): (st: SweepState) reads this {
      SweepState(counts, summary, totalNet, byViewport)
    }

    /** Every accepted entry starts with a zero match counter, every viewport with zero totals. */
    constructor (engine: Engine, rules: seq<Rule>, viewports: seq<Viewport>)
      ensures Valid() && this.engine == engine && this.rules == rules
      ensures State() == Begin(Fresh(rules).counts, Names(viewports))
    {
      this.engine := engine;
      this.rules := rules;
      this.counts := seq(|rules|, _ => 0);
      this.summary := [];
      this.totalNet := 0;
      this.byViewport := map n | n in Names(viewports) :: ZERO;
    }

    /** Charges the violation to the first entry that covers it. */
    method MatchViolation(v: Violation) returns (m: Match)
      requires Valid()
      modifies this`counts
      ensures Valid()
      ensures match FirstMatch(engine, rules, v)
              case None => m == NotAllowed && counts == old(counts)
              case Some(i) =>
                && counts == old(counts)[i := old(counts)[i] + 1]
                && m == Allowed(i, Overflows(engine, rules[i].entry, counts[i]))
    {
      var targets := Flat(v.targets);
      for i := 0 to |rules|
        invariant Valid() && counts == old(counts)
        invariant forall j :: 0 <= j < i ==> !Covers(engine, rules[j], v)
      {
        if !SameSite(rules[i], v) { continue; }
        for k := 0 to |targets|
          invariant Valid() && counts == old(counts)
          invariant forall j :: 0 <= j < k ==> !HitsTarget(engine, rules[i], targets[j])
        {
          if HitsTarget(engine, rules[i], targets[k]) {
            assert targets[k] in Flat(v.targets);
            assert Covers(engine, rules[i], v);
            counts := counts[i := counts[i] + 1];
            return Allowed(i, Overflows(engine, rules[i].entry, counts[i]));
          }
        }
      }
      return NotAllowed;
    }

    /** Counts one node. */
    method ChargeNode(t: Tally, v: Violation) returns (u: Tally)
      requires Valid()
      modifies this`counts
      ensures Valid() && u.raw == t.raw + 1
      ensures Progress(counts, u.suppressed, u.net)
              == Account(engine, rules, Progress(old(counts), t.suppressed, t.net), v)
    {
      var m := MatchViolation(v);
      u := if m.Allowed? && !m.overflow then t.(raw := t.raw + 1, suppressed := t.suppressed + 1)
           else t.(raw := t.raw + 1, net := t.net + 1);
    }

    /** Counts the nodes of one finding. */
    method ScanNodes(route: string, id: string, nodes: seq<seq<Target>>) returns (t: Tally)
      requires Valid()
      modifies this`counts
      ensures Valid() && t.raw == |nodes|
      ensures Progress(counts, t.suppressed, t.net)
              == After(engine, rules, Progress(old(counts), 0, 0), NodeViolations(route, id, nodes))
    {
      t := ZERO;
      for k := 0 to |nodes|
        invariant Valid() && t.raw == k
        invariant Progress(counts, t.suppressed, t.net)
                  == After(engine, rules, Progress(old(counts), 0, 0), NodeViolations(route, id, nodes[..k]))
      {
        ghost var upTo := NodeViolations(route, id, nodes[..k + 1]);
        assert upTo[..k] == NodeViolations(route, id, nodes[..k]);
        t := ChargeNode(t, Violation(route, id, nodes[k]));
      }
      assert nodes[..|nodes|] == nodes;
    }

    /** Counts one cell; findings for rules the viewport does not run are skipped. */
    method ScanCell(c: Cell) returns (t: Tally)
      requires Valid()
      modifies this`counts
      ensures Valid()
      ensures t == CellTally(engine, rules, old(counts), c)
      ensures counts == CellProgress(engine, rules, old(counts), c).counts
    {
      if c.probe.ProbeFailed? { return Tally(0, 0, 1); }
      var findings := c.probe.findings;
      t := ZERO;
      ghost var p0 := Progress(counts, 0, 0);
      ghost var f := (f: Finding) => FindingViolations(c.route, c.viewport.rules, f);
      for i := 0 to |findings|
        invariant Valid() && t.raw == |FlatMap(findings[..i], f)|
        invariant Progress(counts, t.suppressed, t.net) == After(engine, rules, p0, FlatMap(findings[..i], f))
      {
        ghost var done := FlatMap(findings[..i], f);
        ghost var p := Progress(counts, t.suppressed, t.net);
        assert findings[..i + 1][..i] == findings[..i];
        AfterAppend(engine, rules, p0, done, f(findings[i]));
        if findings[i].id in c.viewport.rules {
          AfterShift(engine, rules, p, f(findings[i]));
          var u := ScanNodes(c.route, findings[i].id, findings[i].nodes);
          t := Plus(t, u);
        }
      }
      assert findings[..|findings|] == findings;
    }

    method VisitCell(c: Cell)
      requires Valid() && c.viewport.name in byViewport
      modifies this
      ensures Valid() && byViewport.Keys == old(byViewport.Keys)
      ensures State() == SweepCell(engine, rules, old(State()), c)
    {
      var t := ScanCell(c);
      summary := summary + [t];
      totalNet := totalNet + t.net;
      byViewport := byViewport[c.viewport.name := Plus(byViewport[c.viewport.name], t)];
    }

    method VisitRoutes(vp: Viewport, theme: string, routes: seq<string>, probe: Prober)
      requires Valid() && vp.name in byViewport
      modifies this
      ensures Valid() && byViewport.Keys == old(byViewport.Keys)
      ensures State() == SweepAll(engine, rules, old(State()), RouteCells(vp, theme, routes, probe))
    {
      ghost var cells, step := RouteCells(vp, theme, routes, probe), Step(engine, rules);
      for k := 0 to |routes|
        invariant Valid() && byViewport.Keys == old(byViewport.Keys)
        invariant State() == Fold(step, old(State()), cells[..k])
      {
        assert cells[..k + 1][..k] == cells[..k];
        VisitCell(Cell(vp, theme, routes[k], probe(vp, theme, routes[k])));
      }
      assert cells[..|routes|] == cells;
    }

    method VisitThemes(vp: Viewport, themes: seq<string>, routes: seq<string>, probe: Prober)
      requires Valid() && vp.name in byViewport
      modifies this
      ensures Valid() && byViewport.Keys == old(byViewport.Keys)
      ensures State() == SweepAll(engine, rules, old(State()), ThemeCells(vp, themes, routes, probe))
    {
      ghost var step := Step(engine, rules);
      for j := 0 to |themes|
        invariant Valid() && byViewport.Keys == old(byViewport.Keys)
        invariant State() == Fold(step, old(State()), ThemeCells(vp, themes[..j], routes, probe))
      {
        assert themes[..j + 1][..j] == themes[..j];
        FoldAppend(step, old(State()), ThemeCells(vp, themes[..j], routes, probe),
                   RouteCells(vp, themes[j], routes, probe));
        VisitRoutes(vp, themes[j], routes, probe);
      }
      assert themes[..|themes|] == themes;
    }

    /** The triple loop of `main`; the counters are shared by all cells. */
    method Sweep(viewports: seq<Viewport>, themes: seq<string>, routes: seq<string>, probe: Prober)
      requires Valid()
      requires forall i :: 0 <= i < |viewports| ==> viewports[i].name in byViewport
      modifies this
      ensures Valid() && byViewport.Keys == old(byViewport.Keys)
      ensures State() == SweepAll(engine, rules, old(State()), Grid(viewports, themes, routes, probe))
    {
      ghost var step := Step(engine, rules);
      for i := 0 to |viewports|
        invariant Valid() && byViewport.Keys == old(byViewport.Keys)
        invariant State() == Fold(step, old(State()), Grid(viewports[..i], themes, routes, probe))
      {
        assert viewports[..i + 1][..i] == viewports[..i];
        FoldAppend(step, old(State()), Grid(viewports[..i], themes, routes, probe),
                   ThemeCells(viewports[i], themes, routes, probe));
        VisitThemes(viewports[i], themes, routes, probe);
      }
      assert viewports[..|viewports|] == viewports;
    }

    /** The exit decision: failures first, then entries that matched nothing if those are fatal. */
    method Decide(strictUnused: Value) returns (v: Verdict)
      requires Valid()
      ensures v == FailViolations <==> totalNet > 0
      ensures v == Pass <==> totalNet == 0 && (Truthy(strictUnused) ==> forall i :: 0 <= i < |rules| ==> counts[i] > 0)
    {
      var stale := [];
      for i := 0 to |rules|
        invariant stale == [] <==> forall j :: 0 <= j < i ==> counts[j] > 0
      {
        if counts[i] == 0 { stale := stale + [rules[i]]; }
      }
      if totalNet > 0 { return FailViolations; }
      if stale != [] && Truthy(strictUnused) { return FailStale; }
      return Pass;
    }
  }

  // ---- theorems about whole sweeps ----

  /** All cells belong to a viewport whose totals are kept. */
  ghost predicate OnViewports(names: seq<string>, cells: seq<Cell>) {
    forall i :: 0 <= i < |cells| ==> cells[i].viewport.name in names
  }

  /** A sweep is one run over the concatenated violations, plus one failure per failed probe. */
  lemma {:induction false} SweepIsOneRun(engine: Engine, rules: seq<Rule>, counts: seq<nat>,
                                         names: seq<string>, cells: seq<Cell>)
    requires |counts| == |rules| && OnViewports(names, cells)
    ensures var run := After(engine, rules, Progress(counts, 0, 0), AllViolations(cells));
            var end := SweepAll(engine, rules, Begin(counts, names), cells);
            end.counts == run.counts && end.totalNet == FailedProbes(cells) + run.net
  {
    if cells != [] {
      var front, c := cells[..|cells| - 1], cells[|cells| - 1];
      SweepIsOneRun(engine, rules, counts, names, front);
      SweepKeeps(engine, rules, Begin(counts, names), front);
      var st := SweepAll(engine, rules, Begin(counts, names), front);
      var run := After(engine, rules, Progress(counts, 0, 0), AllViolations(front));
      AfterAppend(engine, rules, Progress(counts, 0, 0), AllViolations(front), CellViolations(c));
      AfterShift(engine, rules, run, CellViolations(c));
      assert SweepAll(engine, rules, Begin(counts, names), cells) == SweepCell(engine, rules, st, c);
    }
  }

  /** Total failures of a sweep from fresh counters, without reference to any order. */
  lemma SweepClosedForm(engine: Engine, rules: seq<Rule>, names: seq<string>, cells: seq<Cell>)
    requires OnViewports(names, cells)
    ensures var end := SweepAll(engine, rules, Begin(Fresh(rules).counts, names), cells);
            && end.counts == ChargedCounts(engine, rules, AllViolations(cells))
            && end.totalNet == FailedProbes(cells) + NetOf(engine, rules, AllViolations(cells))
  {
    SweepIsOneRun(engine, rules, Fresh(rules).counts, names, cells);
    NetClosedForm(engine, rules, AllViolations(cells));
  }

  /** The order in which cells are swept changes neither the failures nor any counter. */
  lemma SweepOrderIrrelevant(engine: Engine, rules: seq<Rule>, names: seq<string>, a: seq<Cell>, b: seq<Cell>)
    requires multiset(a) == multiset(b) && OnViewports(names, a)
    ensures var x := SweepAll(engine, rules, Begin(Fresh(rules).counts, names), a);
            var y := SweepAll(engine, rules, Begin(Fresh(rules).counts, names), b);
            x.totalNet == y.totalNet && x.counts == y.counts
  {
    forall i | 0 <= i < |b| ensures b[i].viewport.name in names {
      assert b[i] in multiset(b);
      assert b[i] in multiset(a);
    }
    SweepClosedForm(engine, rules, names, a);
    SweepClosedForm(engine, rules, names, b);
    FlatMapPermutation(a, b, c => CellViolations(c));
    NetPermutation(engine, rules, AllViolations(a), AllViolations(b));
    CountIfPermutation(a, b, IsFailed);
  }

  /** Conservation in a cell: raw = suppressed + net when scanned, exactly one failure otherwise. */
  ghost predicate Conserves(c: Cell, t: Tally) {
    if IsFailed(c) then t == Tally(0, 0, 1) else t.raw == |CellViolations(c)| == t.suppressed + t.net
  }

  lemma {:induction false} CellsConserve(engine: Engine, rules: seq<Rule>, counts: seq<nat>,
                                         names: seq<string>, cells: seq<Cell>)
    requires |counts| == |rules| && OnViewports(names, cells)
    ensures var summary := SweepAll(engine, rules, Begin(counts, names), cells).summary;
            |summary| == |cells| && forall i :: 0 <= i < |cells| ==> Conserves(cells[i], summary[i])
  {
    if cells != [] {
      var last := |cells| - 1;
      CellsConserve(engine, rules, counts, names, cells[..last]);
      SweepKeeps(engine, rules, Begin(counts, names), cells[..last]);
      var before := SweepAll(engine, rules, Begin(counts, names), cells[..last]);
      var t := CellTally(engine, rules, before.counts, cells[last]);
      assert Conserves(cells[last], t);
      assert SweepAll(engine, rules, Begin(counts, names), cells).summary == before.summary + [t];
      forall i | 0 <= i < last ensures Conserves(cells[i], before.summary[i]) {
        assert cells[..last][i] == cells[i];
      }
    }
  }

  ghost function Sum(ts: seq<Tally>): (t: Tally) {
    if ts == [] then ZERO else Plus(Sum(ts[..|ts| - 1]), ts[|ts| - 1])
  }

  ghost function Column(m: map<string, Tally>, names: seq<string>): (ts: seq<Tally>)
    requires forall n :: n in names ==> n in m
  {
    seq(|names|, i requires 0 <= i < |names| => m[names[i]])
  }

  ghost function SumOver(m: map<string, Tally>, names: seq<string>): (t: Tally)
    requires forall n :: n in names ==> n in m
  {
    Sum(Column(m, names))
  }

  predicate IsZero(t: Tally) { t.raw == 0 && t.suppressed == 0 && t.net == 0 }

  lemma {:induction false} SumZero(ts: seq<Tally>)
    requires forall i :: 0 <= i < |ts| ==> IsZero(ts[i])
    ensures IsZero(Sum(ts))
  {
    if ts != [] {
      var last := |ts| - 1;
      SumZero(ts[..last]);
      assert IsZero(ts[last]);
    }
  }

  lemma {:induction false} SumUpdate(ts: seq<Tally>, k: nat, t: Tally)
    requires k < |ts|
    ensures Sum(ts[k := Plus(ts[k], t)]) == Plus(Sum(ts), t)
  {
    var last := |ts| - 1;
    var ts' := ts[k := Plus(ts[k], t)];
    if k == last {
      assert ts'[..last] == ts[..last];
    } else {
      assert ts'[..last] == ts[..last][k := Plus(ts[k], t)];
      SumUpdate(ts[..last], k, t);
    }
  }

  lemma AddUpStep(engine: Engine, rules: seq<Rule>, names: seq<string>, st: SweepState, c: Cell)
    requires |st.counts| == |rules| && Distinct(names)
    requires (forall n :: n in names ==> n in st.byViewport) && c.viewport.name in names
    ensures var t, next := CellTally(engine, rules, st.counts, c), SweepCell(engine, rules, st, c);
            && SumOver(next.byViewport, names) == Plus(SumOver(st.byViewport, names), t)
            && Sum(next.summary) == Plus(Sum(st.summary), t)
  {
    var t, next := CellTally(engine, rules, st.counts, c), SweepCell(engine, rules, st, c);
    var k :| 0 <= k < |names| && names[k] == c.viewport.name;
    var column := Column(st.byViewport, names);
    SumUpdate(column, k, t);
    assert Column(next.byViewport, names) == column[k := Plus(column[k], t)];
    assert next.summary[..|st.summary|] == st.summary;
  }

  ghost predicate AddsUp(st: SweepState, names: seq<string>) {
    && (forall n :: n in names ==> n in st.byViewport)
    && SumOver(st.byViewport, names) == Sum(st.summary)
    && Sum(st.summary).net == st.totalNet
  }

  lemma AddsUpStep(engine: Engine, rules: seq<Rule>, names: seq<string>, st: SweepState, c: Cell, st': SweepState)
    requires |st.counts| == |rules| && Distinct(names) && c.viewport.name in names && AddsUp(st, names)
    requires st' == SweepCell(engine, rules, st, c)
    ensures AddsUp(st', names)
  {
    AddUpStep(engine, rules, names, st, c);
  }

  lemma {:induction false} FoldAddsUp(
      engine: Engine, rules: seq<Rule>, names: seq<string>, st: SweepState, cells: seq<Cell>,
      step: (SweepState, Cell) -> SweepState)
    requires |st.counts| == |rules| && Distinct(names) && OnViewports(names, cells) && AddsUp(st, names)
    requires forall st, c :: step(st, c) == SweepCell(engine, rules, st, c)
    ensures |Fold(step, st, cells).counts| == |rules| && AddsUp(Fold(step, st, cells), names)
  {
    if cells != [] {
      var last := |cells| - 1;
      FoldAddsUp(engine, rules, names, st, cells[..last], step);
      AddsUpStep(engine, rules, names, Fold(step, st, cells[..last]), cells[last], Fold(step, st, cells));
    }
  }

  lemma BeginAddsUp(counts: seq<nat>, names: seq<string>)
    ensures AddsUp(Begin(counts, names), names)
  {
    SumZero(Column(Begin(counts, names).byViewport, names));
  }

  /** The per-viewport totals add up to the totals of all cells, and so to the global failure count. */
  lemma ViewportsAddUp(engine: Engine, rules: seq<Rule>, counts: seq<nat>, names: seq<string>, cells: seq<Cell>)
    requires |counts| == |rules| && Distinct(names) && OnViewports(names, cells)
    ensures var end := SweepAll(engine, rules, Begin(counts, names), cells);
            && (forall n :: n in names ==> n in end.byViewport)
            && SumOver(end.byViewport, names) == Sum(end.summary)
            && Sum(end.summary).net == end.totalNet
  {
    BeginAddsUp(counts, names);
    FoldAddsUp(engine, rules, names, Begin(counts, names), cells, Step(engine, rules));
  }

  // ---- the verdict ----

  ghost predicate NoCapExceeded(engine: Engine, rules: seq<Rule>, vs: seq<Violation>) {
    forall i :: 0 <= i < |rules| && Cap(engine, rules[i].entry).Some? ==>
      Charged(engine, rules, vs, i) <= Cap(engine, rules[i].entry).value
  }

  ghost predicate Used(engine: Engine, rules: seq<Rule>, vs: seq<Violation>, i: nat) {
    exists v :: v in vs && ChargedTo(engine, rules, v, i)
  }

  /** What a passing sweep means, in terms of the allowlist and the violations alone. */
  ghost predicate Clean(engine: Engine, rules: seq<Rule>, cells: seq<Cell>, strictUnused: Value) {
    var vs := AllViolations(cells);
    && (forall c :: c in cells ==> !IsFailed(c))
    && (forall v :: v in vs ==> !Uncovered(engine, rules, v))
    && NoCapExceeded(engine, rules, vs)
    && (Truthy(strictUnused) ==> forall i :: 0 <= i < |rules| ==> Used(engine, rules, vs, i))
  }

  lemma NetZero(engine: Engine, rules: seq<Rule>, vs: seq<Violation>)
    ensures NetOf(engine, rules, vs) == 0
            <==> (forall v :: v in vs ==> !Uncovered(engine, rules, v)) && NoCapExceeded(engine, rules, vs)
  {
    CountIfZero(vs, v => Uncovered(engine, rules, v));
    ExcessNone(engine, rules, ChargedCounts(engine, rules, vs));
  }

  /** The sweep ends without failures and without fatal stale entries exactly when it is clean. */
  lemma CleanIff(engine: Engine, rules: seq<Rule>, names: seq<string>, cells: seq<Cell>, strictUnused: Value)
    requires OnViewports(names, cells)
    ensures var end := SweepAll(engine, rules, Begin(Fresh(rules).counts, names), cells);
            && |end.counts| == |rules|
            && (Clean(engine, rules, cells, strictUnused)
                <==> end.totalNet == 0 && (Truthy(strictUnused) ==> forall i :: 0 <= i < |rules| ==> end.counts[i] > 0))
  {
    var vs := AllViolations(cells);
    SweepClosedForm(engine, rules, names, cells);
    CountIfZero(cells, IsFailed);
    NetZero(engine, rules, vs);
    forall i | 0 <= i < |rules|
      ensures ChargedCounts(engine, rules, vs)[i] > 0 <==> Used(engine, rules, vs, i)
    {
      CountIfZero(vs, v => ChargedTo(engine, rules, v, i));
    }
  }

  // ---- what is swept, and what is reported ----

  /** The node is one that a probe reported, for a rule that the viewport runs. */
  ghost predicate Reported(cells: seq<Cell>, v: Violation) {
    exists i, j :: 0 <= i < |cells| && InCell(cells[i], j, v)
  }

  ghost predicate InCell(c: Cell, j: nat, v: Violation) {
    && c.probe.Scanned? && j < |c.probe.findings| && c.probe.findings[j].id in c.viewport.rules
    && v.route == c.route && v.rule == c.probe.findings[j].id && v.targets in c.probe.findings[j].nodes
  }

  lemma FindingIff(route: string, rules: seq<string>, f: Finding, v: Violation)
    ensures v in FindingViolations(route, rules, f)
            <==> f.id in rules && v.route == route && v.rule == f.id && v.targets in f.nodes
  {
    if f.id in rules && v.route == route && v.rule == f.id && v.targets in f.nodes {
      var k :| 0 <= k < |f.nodes| && f.nodes[k] == v.targets;
      assert NodeViolations(route, f.id, f.nodes)[k] == v;
    }
  }

  lemma CellIff(c: Cell, v: Violation)
    ensures v in CellViolations(c) <==> exists j :: InCell(c, j, v)
  {
    if c.probe.Scanned? {
      var f := (f: Finding) => FindingViolations(c.route, c.viewport.rules, f);
      FlatMapIff(c.probe.findings, f, v);
      forall j | 0 <= j < |c.probe.findings| ensures v in f(c.probe.findings[j]) <==> InCell(c, j, v) {
        FindingIff(c.route, c.viewport.rules, c.probe.findings[j], v);
      }
    }
  }

  /** The violations counted are exactly the nodes reported. */
  lemma ReportedIff(cells: seq<Cell>, v: Violation)
    ensures v in AllViolations(cells) <==> Reported(cells, v)
  {
    FlatMapIff(cells, c => CellViolations(c), v);
    forall i | 0 <= i < |cells| ensures v in CellViolations(cells[i]) <==> exists j :: InCell(cells[i], j, v) {
      CellIff(cells[i], v);
    }
  }

  /** Nodes of the findings whose rule the viewport runs. */
  function NodeCount(findings: seq<Finding>, rules: seq<string>): (n: nat) {
    if findings == [] then 0
    else (if findings[0].id in rules then |findings[0].nodes| else 0) + NodeCount(findings[1..], rules)
  }

  lemma {:induction false} RawIsNodes(route: string, findings: seq<Finding>, rules: seq<string>)
    ensures |FlatMap(findings, f => FindingViolations(route, rules, f))| == NodeCount(findings, rules)
  {
    var f := (f: Finding) => FindingViolations(route, rules, f);
    if findings != [] {
      assert findings == [findings[0]] + findings[1..];
      FlatMapAppend([findings[0]], findings[1..], f);
      assert [findings[0]][..0] == [];
      assert FlatMap([findings[0]], f) == FlatMap([findings[0]][..0], f) + f(findings[0]);
      RawIsNodes(route, findings[1..], rules);
    }
  }

  lemma {:induction false} ThemeCellsIff(vp: Viewport, themes: seq<string>, routes: seq<string>, probe: Prober, c: Cell)
    ensures c in ThemeCells(vp, themes, routes, probe)
            <==> c.theme in themes && c.route in routes && c.viewport == vp && c.probe == probe(vp, c.theme, c.route)
  {
    if themes != [] {
      var front, last := themes[..|themes| - 1], themes[|themes| - 1];
      ThemeCellsIff(vp, front, routes, probe, c);
      assert themes == front + [last];
      RouteCellsIff(vp, last, routes, probe, c);
    }
  }

  lemma RouteCellsIff(vp: Viewport, theme: string, routes: seq<string>, probe: Prober, c: Cell)
    ensures c in RouteCells(vp, theme, routes, probe)
            <==> c.theme == theme && c.route in routes && c.viewport == vp && c.probe == probe(vp, theme, c.route)
  {
    if c.theme == theme && c.route in routes && c.viewport == vp && c.probe == probe(vp, theme, c.route) {
      var i :| 0 <= i < |routes| && routes[i] == c.route;
      assert RouteCells(vp, theme, routes, probe)[i] == c;
    }
  }

  /** The grid holds each combination of viewport, theme and route, with what the probe returns for it. */
  lemma {:induction false} GridIff(
      viewports: seq<Viewport>, themes: seq<string>, routes: seq<string>, probe: Prober, c: Cell)
    ensures c in Grid(viewports, themes, routes, probe)
            <==> && c.viewport in viewports && c.theme in themes && c.route in routes
                 && c.probe == probe(c.viewport, c.theme, c.route)
  {
    if viewports != [] {
      var front, last := viewports[..|viewports| - 1], viewports[|viewports| - 1];
      GridIff(front, themes, routes, probe, c);
      assert c.viewport in viewports <==> c.viewport in front || c.viewport == last;
      ThemeCellsIff(last, themes, routes, probe, c);
    }
  }

  lemma {:induction false} ThemeCellsSize(vp: Viewport, themes: seq<string>, routes: seq<string>, probe: Prober)
    ensures |ThemeCells(vp, themes, routes, probe)| == |themes| * |routes|
  {
    if themes != [] { ThemeCellsSize(vp, themes[..|themes| - 1], routes, probe); }
  }

  lemma OneMore(n: nat, m: nat)
    ensures (n + 1) * m == n * m + m
  {
  }

  /** And no more than that. */
  lemma {:induction false} GridSize(viewports: seq<Viewport>, themes: seq<string>, routes: seq<string>, probe: Prober)
    ensures |Grid(viewports, themes, routes, probe)| == |viewports| * (|themes| * |routes|)
  {
    if viewports != [] {
      var n := |viewports| - 1;
      GridSize(viewports[..n], themes, routes, probe);
      ThemeCellsSize(viewports[n], themes, routes, probe);
      OneMore(n, |themes| * |routes|);
    }
  }

  // ---- the verdict over the parsed entries ----

  /** What a passing sweep means, in terms of the allowlist's entries and what the probes reported. */
  ghost predicate Passes(engine: Engine, entries: seq<Entry>, cells: seq<Cell>, strict: bool) {
    && (forall c :: c in cells ==> !c.probe.ProbeFailed?)
    && (forall v :: Reported(cells, v) ==> exists e :: e in entries && EntryCovers(engine, e, v))
    && (forall i :: 0 <= i < |entries| ==> WithinCap(engine, entries, AllViolations(cells), i))
    && (strict ==> forall i :: 0 <= i < |entries| ==> Needed(engine, entries, cells, i))
  }

  /** Some reported node belongs to the entry. */
  ghost predicate Needed(engine: Engine, entries: seq<Entry>, cells: seq<Cell>, i: nat) {
    exists v :: Reported(cells, v) && FirstCover(engine, entries, v, i)
  }

  /** No more violations belong to the entry than its cap allows. */
  ghost predicate WithinCap(engine: Engine, entries: seq<Entry>, vs: seq<Violation>, i: nat)
    requires i < |entries|
  {
    var cap := Cap(engine, entries[i]);
    cap.Some? ==> CountIf(vs, v => FirstCover(engine, entries, v, i)) <= cap.value
  }

  lemma WithinCapIff(
      engine: Engine, entries: seq<Entry>, today: string, rules: seq<Rule>, vs: seq<Violation>, i: nat)
    requires RulesFor(engine, entries, today, rules) && i < |entries|
    ensures WithinCap(engine, entries, vs, i)
            <==> (Cap(engine, rules[i].entry).Some? ==>
                    Charged(engine, rules, vs, i) <= Cap(engine, rules[i].entry).value)
  {
    forall v | v in vs ensures FirstCover(engine, entries, v, i) == ChargedTo(engine, rules, v, i) {
      ChargedIff(engine, entries, today, rules, v, i);
    }
    CountIfSame(vs, v => FirstCover(engine, entries, v, i), v => ChargedTo(engine, rules, v, i));
  }

  lemma UsedIff(engine: Engine, entries: seq<Entry>, today: string, rules: seq<Rule>, cells: seq<Cell>, i: nat)
    requires RulesFor(engine, entries, today, rules)
    ensures Used(engine, rules, AllViolations(cells), i) <==> Needed(engine, entries, cells, i)
  {
    forall v ensures (v in AllViolations(cells) && ChargedTo(engine, rules, v, i))
                     <==> (Reported(cells, v) && FirstCover(engine, entries, v, i)) {
      ReportedIff(cells, v);
      ChargedIff(engine, entries, today, rules, v, i);
    }
  }

  lemma CoveredIff(engine: Engine, entries: seq<Entry>, today: string, rules: seq<Rule>, cells: seq<Cell>)
    requires RulesFor(engine, entries, today, rules)
    ensures (forall v :: v in AllViolations(cells) ==> !Uncovered(engine, rules, v))
            <==> forall v :: Reported(cells, v) ==> exists e :: e in entries && EntryCovers(engine, e, v)
  {
    forall v ensures v in AllViolations(cells) <==> Reported(cells, v) { ReportedIff(cells, v); }
    forall v ensures !Uncovered(engine, rules, v) <==> exists e :: e in entries && EntryCovers(engine, e, v) {
      UncoveredIff(engine, entries, today, rules, v);
    }
  }

  /** A sweep is clean exactly if it passes in terms of the parsed entries. */
  lemma PassesIff(
      engine: Engine, entries: seq<Entry>, today: string, rules: seq<Rule>, cells: seq<Cell>, strictUnused: Value)
    requires RulesFor(engine, entries, today, rules)
    ensures Clean(engine, rules, cells, strictUnused) <==> Passes(engine, entries, cells, Truthy(strictUnused))
  {
    CoveredIff(engine, entries, today, rules, cells);
    forall i | 0 <= i < |entries|
      ensures WithinCap(engine, entries, AllViolations(cells), i)
              <==> (Cap(engine, rules[i].entry).Some? ==>
                      Charged(engine, rules, AllViolations(cells), i) <= Cap(engine, rules[i].entry).value)
    {
      WithinCapIff(engine, entries, today, rules, AllViolations(cells), i);
    }
    forall i | 0 <= i < |entries|
      ensures Used(engine, rules, AllViolations(cells), i) <==> Needed(engine, entries, cells, i)
    {
      UsedIff(engine, entries, today, rules, cells, i);
    }
  }
}
