/** The gate end to end: from the text of the allowlist file and what the browser reports to the
    process exit code. */
module AllowlistMain {
  import opened Common
  import opened AllowlistEntry
  import opened AllowlistYaml
  import opened AllowlistLine
  import opened AllowlistPrint
  import opened AllowlistGate
  import opened AllowlistSweep

  /** The document a missing or readable file stands for. */
  ghost function DocumentIn(file: Option<string>): (r: Result<Document, ParseError>) {
    match file case None => Ok(Document(map[], [])) case Some(text) => Parse(text)
  }

  /** The gate reads a file in any layout as its rows, and no file as an empty list. */
  lemma FileRead(f: File)
    requires LegibleFile(f)
    ensures DocumentIn(Some(FileText(f))) == RowsFrom(RowsIn(RowRead, f.lines, f.last), AllowlistYaml.START)
    ensures DocumentIn(None) == Ok(Document(map[], []))
  {
    ParseFile(f);
  }

  /** The file parses and every entry of it meets the policy. */
  ghost predicate Loads(engine: Engine, file: Option<string>, today: string) {
    && DocumentIn(file).Ok?
    && (file.Some? ==>
          && DateShaped(today)
          && var entries := DocumentIn(file).value.entries;
             forall i :: 0 <= i < |entries| ==> Acceptable(engine, entries[i], today))
  }

  ghost function RulesIn(engine: Engine, file: Option<string>, today: string): (rules: seq<Rule>)
    requires Loads(engine, file, today)
  {
    var entries := DocumentIn(file).value.entries;
    seq(|entries|, i requires 0 <= i < |entries| => Accept(entries[i]))
  }

  /** `strict_unused` from the file, defaulting to false, unless the environment forces it. */
  function StrictUnused(topLevel: Entry, forced: bool): (v: Value) {
    if forced then Bool(true) else if "strict_unused" in topLevel then topLevel["strict_unused"] else Bool(false)
  }

  /** Strictness is asked for by the environment, or by a truthy setting in the file. */
  predicate Strict(topLevel: Entry, forced: bool) { forced || Truthy(Field(topLevel, "strict_unused")) }

  lemma StrictIff(topLevel: Entry, forced: bool)
    ensures Truthy(StrictUnused(topLevel, forced)) <==> Strict(topLevel, forced)
  {
  }

  method LoadAllowlist(engine: Engine, file: Option<string>, today: string)
    returns (rules: seq<Rule>, topLevel: Entry, ok: bool)
    ensures ok <==> Loads(engine, file, today)
    ensures ok ==> rules == RulesIn(engine, file, today) && topLevel == DocumentIn(file).value.topLevel
  {
    if file.None? { return [], map[], true; }
    var parsed := ParseAllowlistYaml(file.value);
    if parsed.Err? { return [], map[], false; }
    var filtered := FilterAllowlist(engine, parsed.value.entries, today);
    if filtered.Err? { return [], map[], false; }
    return filtered.value, parsed.value.topLevel, true;
  }

  lemma GridOnViewports(viewports: seq<Viewport>, themes: seq<string>, routes: seq<string>, probe: Prober)
    ensures OnViewports(Names(viewports), Grid(viewports, themes, routes, probe))
  {
    var cells := Grid(viewports, themes, routes, probe);
    forall i | 0 <= i < |cells| ensures cells[i].viewport.name in Names(viewports) {
      assert cells[i] in cells;
      var k :| 0 <= k < |viewports| && viewports[k] == cells[i].viewport;
      assert Names(viewports)[k] == cells[i].viewport.name;
    }
  }

  /** One sweep with fresh counters passes exactly if it is clean. */
  method Judge(engine: Engine, rules: seq<Rule>, strict: Value,
               viewports: seq<Viewport>, themes: seq<string>, routes: seq<string>, probe: Prober)
    returns (pass: bool)
    ensures pass <==> Clean(engine, rules, Grid(viewports, themes, routes, probe), strict)
  {
    var gate := new Gate(engine, rules, viewports);
    forall i | 0 <= i < |viewports| ensures viewports[i].name in gate.byViewport {
      assert Names(viewports)[i] in Names(viewports);
    }
    gate.Sweep(viewports, themes, routes, probe);
    GridOnViewports(viewports, themes, routes, probe);
    CleanIff(engine, rules, Names(viewports), Grid(viewports, themes, routes, probe), strict);
    var verdict := gate.Decide(strict);
    return verdict == Pass;
  }

  /** The same in terms of the entries that the rules came from. */
  method JudgeEntries(engine: Engine, ghost entries: seq<Entry>, today: string, rules: seq<Rule>,
                      topLevel: Entry, forced: bool,
                      viewports: seq<Viewport>, themes: seq<string>, routes: seq<string>, probe: Prober)
    returns (pass: bool)
    requires RulesFor(engine, entries, today, rules)
    ensures pass <==> Passes(engine, entries, Grid(viewports, themes, routes, probe), Strict(topLevel, forced))
  {
    var strict := StrictUnused(topLevel, forced);
    pass := Judge(engine, rules, strict, viewports, themes, routes, probe);
    StrictIff(topLevel, forced);
    PassesIff(engine, entries, today, rules, Grid(viewports, themes, routes, probe), strict);
  }

  lemma LoadedRules(engine: Engine, file: Option<string>, today: string)
    requires Loads(engine, file, today)
    ensures RulesFor(engine, DocumentIn(file).value.entries, today, RulesIn(engine, file, today))
  {
  }

  /** Exit code 2 for an allowlist that does not load, 0 for a clean sweep, 1 otherwise. */
  method RunGate(engine: Engine, file: Option<string>, today: string, forced: bool,
                 viewports: seq<Viewport>, themes: seq<string>, routes: seq<string>, probe: Prober)
    returns (exit: nat)
    ensures exit == 2 <==> !Loads(engine, file, today)
    ensures Loads(engine, file, today) ==>
              (exit == 0 <==>
                 Passes(engine, DocumentIn(file).value.entries, Grid(viewports, themes, routes, probe),
                        Strict(DocumentIn(file).value.topLevel, forced)))
    ensures exit <= 2
  {
    var rules, topLevel, ok := LoadAllowlist(engine, file, today);
    if !ok { return 2; }
    LoadedRules(engine, file, today);
    var pass := JudgeEntries(engine, DocumentIn(file).value.entries, today, rules, topLevel, forced,
                             viewports, themes, routes, probe);
    return if pass then 0 else 1;
  }
}
