/** Resolution of `var(--name, fallback)` in the stylesheet probes: one resolver with a cycle check,
    one without. Section 2.3 of CSS Custom Properties for Cascading Variables Module Level 1 is about
    such cycles, section 3 about `var()`. */
module CssTokens {
  import opened Common
  import opened JsText
  import opened VarChase

  // ---- the text of a reference ----

  const IMPORTANT := "!important"

  /** Trims and drops a final `!important`. */
  function Normalize(raw: string): (s: string)
    ensures |s| <= |raw|
  {
    DropMark(Trim(raw), IMPORTANT)
  }

  predicate EndsWith(t: string, mark: string) { |t| >= |mark| && t[|t| - |mark|..] == mark }

  /** Without the mark at its end, and without the white space before that. */
  function DropMark(t: string, mark: string): (s: string)
    ensures |s| <= |t|
  {
    if EndsWith(t, mark) then Trim(TrimEnd(t[..|t| - |mark|])) else t
  }

  predicate NameChar(c: char) { IsLetter(c) || IsDigit(c) || c == '-' }

  function NameLength(s: string): (n: nat)
    ensures n <= |s|
  {
    if s == "" || !NameChar(s[0]) then 0 else 1 + NameLength(s[1..])
  }

  datatype Ref = Ref(name: string, fallback: Option<string>)

  /** `\s*(.+)` up to the end of `rest`; when `rest` is all white space the match gives one back. */
  function MatchFallback(rest: string): (f: Option<string>)
    ensures f.Some? ==> 0 < |f.value| <= |rest|
  {
    var text := if AllSpace(rest) && rest != "" then rest[|rest| - 1..] else TrimStart(rest);
    if text != "" && OneLine(text) then Some(text) else None
  }

  /** `\s*--([a-z0-9-]+)\s*(?:,\s*(.+))?` on all of `inner`. */
  function MatchInner(inner: string): (m: Option<Ref>)
    ensures m.Some? && m.value.fallback.Some? ==> |m.value.fallback.value| < |inner|
  {
    var s := TrimStart(inner);
    if |s| < 2 || s[..2] != "--" then None
    else
      var n := NameLength(s[2..]);
      var name, after := s[2..2 + n], TrimStart(s[2 + n..]);
      if n == 0 then None
      else if after == "" then Some(Ref(name, None))
      else if after[0] != ',' then None
      else match MatchFallback(after[1..])
        case None => None
        case Some(f) => Some(Ref(name, Some(f)))
  }

  predicate StartsVar(s: string) {
    && |s| >= 4 && s[3] == '('
    && (s[0] == 'v' || s[0] == 'V') && (s[1] == 'a' || s[1] == 'A') && (s[2] == 'r' || s[2] == 'R')
  }

  /** `^var\(\s*--([a-z0-9-]+)\s*(?:,\s*(.+))?\)$`, ignoring case. */
  function MatchVar(s: string): (m: Option<Ref>)
    ensures m.Some? && m.value.fallback.Some? ==> |m.value.fallback.value| < |s|
  {
    if StartsVar(s) && |s| > 4 && s[|s| - 1] == ')' then MatchInner(s[4..|s| - 1]) else None
  }

  // ---- one step of either resolver ----

  /** Definitions in force: a lookup that yields only non-empty text. */
  type Lookup = string -> Option<string>

  function StepOf(def: Lookup, raw: string): (step: Step) {
    var s := Normalize(raw);
    match MatchVar(s)
    case None => Done(s)
    case Some(ref) =>
      match def(ref.name)
      case Some(text) => Goto(text)
      case None => match ref.fallback case Some(f) => Goto(Trim(f)) case None => Stuck(ref.name)
  }

  function NameOf(raw: string): (name: Option<string>) {
    match MatchVar(Normalize(raw)) case None => None case Some(ref) => Some(ref.name)
  }

  /** The references of a stylesheet as a system to chase. */
  function SystemOf(def: Lookup, domain: set<string>): (sys: System) {
    System(NameOf, raw => StepOf(def, raw), def, domain)
  }

  lemma SystemLawful(def: Lookup, domain: set<string>)
    requires forall n :: n in domain <==> def(n).Some?
    ensures Lawful(SystemOf(def, domain))
  {
    var sys := SystemOf(def, domain);
    forall raw ensures LawfulAt(sys, raw) {
      var m := MatchVar(Normalize(raw));
      if m.Some? && m.value.fallback.Some? { assert |Trim(m.value.fallback.value)| < |raw|; }
    }
  }

  // ---- the resolver with a cycle check ----

  datatype Env = Env(theme: map<string, string>, root: map<string, string>)

  /** The theme's definition unless it is missing or empty, else the root's. */
  function Def(env: Env, n: string): (d: Option<string>) {
    if n in env.theme && env.theme[n] != "" then Some(env.theme[n])
    else if n in env.root && env.root[n] != "" then Some(env.root[n])
    else None
  }

  function Domain(env: Env): (names: set<string>)
    ensures forall n :: n in names <==> Def(env, n).Some?
  {
    set n | n in env.theme.Keys + env.root.Keys && Def(env, n).Some?
  }

  ghost function EnvSystem(env: Env): (sys: System)
    ensures Lawful(sys) && sys.domain == Domain(env)
  {
    SystemLawful(n => Def(env, n), Domain(env));
    SystemOf(n => Def(env, n), Domain(env))
  }

  /** `resolveVar`: the recursion with its shared, mutated set of seen names. */
  class Resolver {
    const env: Env
    var seen: set<string>

    constructor (env: Env)
      ensures this.env == env && seen == {}
    {
      this.env := env;
      this.seen := {};
    }

    method Rec(raw: string) returns (r: Outcome)
      modifies this
      ensures r == Checked(EnvSystem(env), raw, old(seen))
      decreases |Domain(env) - seen|, |raw|
    {
      var s := Normalize(raw);
      var m := MatchVar(s);
      if m.None? { return Value(s); }
      var n, fallback := m.value.name, m.value.fallback;
      if n in seen { return Cycle(n); }
      SmallerSet(Domain(env), seen, n);
      seen := seen + {n};
      if n in env.theme && env.theme[n] != "" { r := Rec(env.theme[n]); }
      else if n in env.root && env.root[n] != "" { r := Rec(env.root[n]); }
      else if fallback.Some? { r := Rec(Trim(fallback.value)); }
      else { r := Unresolved(n); }
    }
  }

  method ResolveVar(name: string, root: map<string, string>, theme: map<string, string>) returns (r: Outcome)
    ensures r == Checked(EnvSystem(Env(theme, root)), Bare(name), {})
  {
    var resolver := new Resolver(Env(theme, root));
    assert "var(--" + name + ")" == Bare(name);
    r := resolver.Rec("var(--" + name + ")");
  }

  // ---- how references are written ----

  lemma {:induction false} NameEnd(name: string, rest: string)
    requires (forall i :: 0 <= i < |name| ==> NameChar(name[i])) && (rest == "" || !NameChar(rest[0]))
    ensures NameLength(name + rest) == |name|
  {
    if name == "" {
      assert name + rest == rest;
    } else {
      assert (name + rest)[1..] == name[1..] + rest;
      NameEnd(name[1..], rest);
    }
  }

  /** Letters of either case, digits and dashes, one at least. */
  ghost predicate ValidName(name: string) {
    && name != ""
    && forall i :: 0 <= i < |name| ==>
         'a' <= name[i] <= 'z' || 'A' <= name[i] <= 'Z' || '0' <= name[i] <= '9' || name[i] == '-'
  }

  ghost predicate ValidFallback(f: string) { f != "" && OneLine(f) && !IsSpace(f[0]) }

  /** The text after a comma: white space and the fallback itself. */
  datatype Tail = NoTail | Tail(space: string, text: string)

  function TailText(tail: Tail): (s: string) {
    match tail case NoTail => "" case Tail(space, text) => "," + (space + text)
  }

  /** What stands between the parentheses, with white space wherever it is allowed. */
  function Inside(before: string, name: string, after: string, tail: Tail): (s: string) {
    before + ("--" + (name + (after + TailText(tail))))
  }

  predicate IsOpening(s: string) {
    |s| == 4 && s[0] in {'v', 'V'} && s[1] in {'a', 'A'} && s[2] in {'r', 'R'} && s[3] == '('
  }

  lemma SpaceBefore(sp: string, rest: string)
    requires AllSpace(sp) && (rest == "" || !IsSpace(rest[0]))
    ensures LeadingSpaces(sp + rest) == |sp| && TrimStart(sp + rest) == rest
  {
    LeadingStops(sp, rest);
    assert (sp + rest)[|sp|..] == rest;
  }

  lemma {:induction false} LeadingStops(sp: string, rest: string)
    requires AllSpace(sp) && (rest == "" || !IsSpace(rest[0]))
    ensures LeadingSpaces(sp + rest) == |sp|
  {
    if sp == "" {
      assert sp + rest == rest;
    } else {
      assert (sp + rest)[1..] == sp[1..] + rest;
      LeadingStops(sp[1..], rest);
    }
  }

  lemma NameStops(after: string, tail: Tail)
    requires AllSpace(after)
    ensures after + TailText(tail) == "" || !NameChar((after + TailText(tail))[0])
  {
    if after != "" { assert after[0] in after; }
  }

  lemma FallbackOf(space: string, text: string)
    requires AllSpace(space) && ValidFallback(text)
    ensures MatchFallback(space + text) == Some(text)
  {
    SpaceBefore(space, text);
    assert (space + text)[|space|] == text[0] && text[0] in space + text;
  }

  lemma MatchInnerAt(inner: string, name: string, rest: string, tail: string)
    requires TrimStart(inner) == "--" + (name + rest) && name != "" && NameLength(name + rest) == |name|
    requires TrimStart(rest) == tail && (tail == "" || tail[0] == ',')
    ensures MatchInner(inner)
            == if tail == "" then Some(Ref(name, None))
               else match MatchFallback(tail[1..]) case None => None case Some(f) => Some(Ref(name, Some(f)))
  {
    var s := "--" + (name + rest);
    assert s[..2] == "--" && s[2..] == name + rest;
    assert s[2..][..|name|] == name && s[2..][|name|..] == rest;
    assert s[2..2 + |name|] == s[2..][..|name|] && s[2 + |name|..] == s[2..][|name|..];
  }

  /** A fallback of white space alone gives its last character back, unless that ends a line. */
  lemma BlankFallback(space: string)
    requires AllSpace(space) && space != "" && !IsLineTerminator(space[|space| - 1])
    ensures MatchFallback(space) == Some([space[|space| - 1]])
  {
    assert space[|space| - 1..] == [space[|space| - 1]];
  }

  /** Every way of writing the inside of a reference is read as its name and its fallback. */
  lemma MatchInside(before: string, name: string, after: string, tail: Tail)
    requires AllSpace(before) && ValidName(name) && AllSpace(after)
    requires tail.Tail? ==> AllSpace(tail.space) && ValidFallback(tail.text)
    ensures MatchInner(Inside(before, name, after, tail))
            == Some(Ref(name, if tail.Tail? then Some(tail.text) else None))
  {
    var rest := after + TailText(tail);
    SpaceBefore(before, "--" + (name + rest));
    NameStops(after, tail);
    NameEnd(name, rest);
    SpaceBefore(after, TailText(tail));
    MatchInnerAt(Inside(before, name, after, tail), name, rest, TailText(tail));
    if tail.Tail? {
      assert TailText(tail)[1..] == tail.space + tail.text;
      FallbackOf(tail.space, tail.text);
    }
  }

  /** The parentheses may follow `var` in any case of letters. */
  lemma MatchOpened(opening: string, inner: string)
    requires IsOpening(opening) && inner != ""
    ensures MatchVar(opening + inner + ")") == MatchInner(inner)
  {
    var s := opening + inner + ")";
    assert s[4..|s| - 1] == inner && s[|s| - 1] == ')';
    assert s[..4] == opening;
    assert s[0] == opening[0] && s[1] == opening[1] && s[2] == opening[2] && s[3] == opening[3];
  }

  lemma {:induction false} NameLengthIs(s: string)
    ensures forall i :: 0 <= i < NameLength(s) ==> NameChar(s[i])
  {
    if s != "" && NameChar(s[0]) {
      NameLengthIs(s[1..]);
      assert forall i :: 0 < i < NameLength(s) ==> s[i] == s[1..][i - 1];
    }
  }

  lemma NameValid(x: string)
    requires NameLength(x) > 0
    ensures ValidName(x[..NameLength(x)])
  {
    NameLengthIs(x);
  }

  /** What has to hold of a text that is read. */
  lemma InnerFacts(inner: string) returns (s: string, n: nat)
    requires MatchInner(inner).Some?
    ensures s == TrimStart(inner) && 2 + n <= |s| && s[..2] == "--" && ValidName(s[2..2 + n])
    ensures var (ref, rest) := (MatchInner(inner).value, TrimStart(s[2 + n..]));
            && ref.name == s[2..2 + n]
            && if rest == "" then ref.fallback == None
               else rest[0] == ',' && ref.fallback.Some? && ref.fallback == MatchFallback(rest[1..])
  {
    s := TrimStart(inner);
    n := NameLength(s[2..]);
    NameValid(s[2..]);
    assert s[2..2 + n] == s[2..][..n];
  }

  /** Conversely, what is read has a name after two dashes, and then nothing or a comma. */
  lemma InsideForm(inner: string) returns (before: string, after: string, rest: string)
    requires MatchInner(inner).Some?
    ensures var ref := MatchInner(inner).value;
            && AllSpace(before) && ValidName(ref.name) && AllSpace(after)
            && inner == before + ("--" + (ref.name + (after + rest)))
            && (if rest == "" then ref.fallback == None
                else rest[0] == ',' && ref.fallback.Some? && ref.fallback == MatchFallback(rest[1..]))
  {
    var s, n := InnerFacts(inner);
    before, after := CutSpace(inner), CutSpace(s[2 + n..]);
    rest := TrimStart(s[2 + n..]);
    CutName(inner, s, n, before, after, rest);
  }

  function CutSpace(s: string): (sp: string)
    ensures AllSpace(sp) && s == sp + TrimStart(s)
  {
    s[..LeadingSpaces(s)]
  }

  lemma CutName(inner: string, s: string, n: nat, before: string, after: string, rest: string)
    requires inner == before + s && 2 + n <= |s| && s[..2] == "--" && s[2 + n..] == after + rest
    ensures inner == before + ("--" + (s[2..2 + n] + (after + rest)))
  {
    assert s == s[..2] + (s[2..2 + n] + s[2 + n..]);
  }

  // ---- trimming and `!important` ----

  /** Text without white space at its ends. */
  predicate Solid(t: string) { t == "" || (!IsSpace(t[0]) && !IsSpace(t[|t| - 1])) }

  lemma {:induction false} EndTrimmed(t: string, sp: string)
    requires Solid(t) && AllSpace(sp)
    ensures TrimEnd(t + sp) == t
  {
    if sp == "" {
      assert t + sp == t;
      TrimFixed(t);
    } else {
      assert (t + sp)[..|t + sp| - 1] == t + sp[..|sp| - 1];
      assert sp[|sp| - 1] in sp;
      EndTrimmed(t, sp[..|sp| - 1]);
    }
  }

  lemma TrimSolid(before: string, t: string, after: string)
    requires AllSpace(before) && Solid(t) && AllSpace(after)
    ensures Trim(before + (t + after)) == t
  {
    if t == "" {
      assert before + (t + after) == "" + (before + after);
      EndTrimmed("", before + after);
    } else {
      EndTrimmedAfter(before, t, after);
      SpaceBefore(before, t);
    }
  }

  lemma {:induction false} EndTrimmedAfter(before: string, t: string, after: string)
    requires t != "" && Solid(t) && AllSpace(after)
    ensures TrimEnd(before + (t + after)) == before + t
  {
    var s := before + (t + after);
    if after == "" {
      assert s == before + t && s[|s| - 1] == t[|t| - 1];
    } else {
      assert s[..|s| - 1] == before + (t + after[..|after| - 1]);
      assert s[|s| - 1] == after[|after| - 1] && after[|after| - 1] in after;
      EndTrimmedAfter(before, t, after[..|after| - 1]);
    }
  }

  /** White space around a text goes, and nothing else. */
  lemma NormalizePlain(before: string, t: string, after: string)
    requires AllSpace(before) && Solid(t) && AllSpace(after) && !EndsWith(t, IMPORTANT)
    ensures Normalize(before + (t + after)) == t
  {
    TrimSolid(before, t, after);
  }

  lemma MarkDropped(t: string, gap: string, mark: string)
    requires Solid(t) && AllSpace(gap)
    ensures DropMark(t + (gap + mark), mark) == t
  {
    CutMark(t, gap, mark);
    EndTrimmed(t, gap);
    TrimFixed(t);
  }

  lemma CutMark(t: string, gap: string, mark: string)
    ensures var s := t + (gap + mark); s[..|s| - |mark|] == t + gap && s[|s| - |mark|..] == mark
  {
  }

  /** One `!important` at the end goes with the white space around it. */
  lemma NormalizeImportant(before: string, t: string, gap: string, after: string)
    requires AllSpace(before) && Solid(t) && AllSpace(gap) && AllSpace(after) && t != ""
    ensures Normalize(before + ((t + (gap + IMPORTANT)) + after)) == t
  {
    ImportantSolid(t, gap);
    TrimSolid(before, t + (gap + IMPORTANT), after);
    MarkDropped(t, gap, IMPORTANT);
  }

  lemma ImportantSolid(t: string, gap: string)
    requires Solid(t) && t != ""
    ensures Solid(t + (gap + IMPORTANT))
  {
    var s := t + (gap + IMPORTANT);
    assert s[0] == t[0] && s[|s| - 1] == IMPORTANT[|IMPORTANT| - 1] == 't';
  }

  // ---- what the resolver answers ----

  function Bare(name: string): (s: string) { "var(" + ("--" + name) + ")" }

  lemma NoImportant(opening: string, inner: string)
    requires IsOpening(opening)
    ensures var s := opening + inner + ")"; Solid(s) && !EndsWith(s, IMPORTANT)
  {
    var s := opening + inner + ")";
    assert s[|s| - 1] == ')' && s[0] == opening[0];
    assert |s| >= |IMPORTANT| ==> s[|s| - |IMPORTANT|..][|IMPORTANT| - 1] == ')';
  }

  /** A whole reference, in any case and with any white space, is read as its name and its fallback. */
  lemma ReadWritten(opening: string, before: string, name: string, after: string, tail: Tail)
    requires IsOpening(opening) && AllSpace(before) && ValidName(name) && AllSpace(after)
    requires tail.Tail? ==> AllSpace(tail.space) && ValidFallback(tail.text)
    ensures var s := opening + Inside(before, name, after, tail) + ")";
            MatchVar(Normalize(s)) == Some(Ref(name, if tail.Tail? then Some(tail.text) else None))
  {
    var inner := Inside(before, name, after, tail);
    var s := opening + inner + ")";
    NoImportant(opening, inner);
    NormalizePlain("", s, "");
    assert "" + (s + "") == s;
    assert |inner| >= 2;
    MatchOpened(opening, inner);
    MatchInside(before, name, after, tail);
  }

  lemma ReadBare(name: string)
    requires ValidName(name)
    ensures MatchVar(Normalize(Bare(name))) == Some(Ref(name, None)) && NameOf(Bare(name)) == Some(name)
  {
    ReadWritten("var(", "", name, "", NoTail);
    assert name + ("" + "") == name;
    assert "" + ("--" + name) == "--" + name;
  }

  /** The first step from a name goes to its definition in force, and ends if there is none. */
  lemma FirstStep(env: Env, name: string)
    requires ValidName(name)
    ensures Orbit(EnvSystem(env).step, Bare(name), 1) == Def(env, name)
    ensures Checked(EnvSystem(env), Bare(name), {})
            == match Def(env, name)
               case None => Unresolved(name)
               case Some(text) => Checked(EnvSystem(env), text, {name})
  {
    ReadBare(name);
    var sys := EnvSystem(env);
    if Def(env, name).Some? {
      var text := Def(env, name).value;
      assert sys.step(Bare(name)) == Goto(text);
      assert Orbit(sys.step, text, 0) == Some(text);
      assert {} + {name} == {name};
    }
  }

  /** A definition that is no reference is the answer, trimmed and without `!important`; the theme's
      comes before the root's, and an empty one does not count. */
  lemma PlainDefinition(env: Env, name: string, text: string)
    requires ValidName(name) && text != "" && NameOf(text).None?
    requires if name in env.theme && env.theme[name] != "" then env.theme[name] == text
             else name in env.root && env.root[name] == text
    ensures Checked(EnvSystem(env), Bare(name), {}) == Value(Normalize(text))
  {
    FirstStep(env, name);
  }

  lemma NoDefinition(env: Env, name: string)
    requires ValidName(name)
    requires (name in env.theme ==> env.theme[name] == "") && (name in env.root ==> env.root[name] == "")
    ensures Checked(EnvSystem(env), Bare(name), {}) == Unresolved(name)
  {
    FirstStep(env, name);
  }

  /** A fallback counts exactly when the name has no definition. */
  lemma FallbackUsed(env: Env, name: string, fallback: string)
    requires ValidName(name) && ValidFallback(fallback)
    ensures Checked(EnvSystem(env), Reference(name, fallback), {})
            == Checked(EnvSystem(env), if Def(env, name).Some? then Def(env, name).value else Trim(fallback), {name})
  {
    ReadReference(name, fallback);
    assert {} + {name} == {name};
  }

  // ---- the exception, concretely ----

  function Reference(name: string, fallback: string): (s: string) {
    "var(" + Inside("", name, "", Tail("", fallback)) + ")"
  }

  lemma InsideOneLine(before: string, name: string, after: string, tail: Tail)
    requires OneLine(before) && OneLine(name) && OneLine(after) && OneLine(TailText(tail))
    ensures OneLine(Inside(before, name, after, tail))
  {
    OneLineJoin(after, TailText(tail));
    OneLineJoin(name, after + TailText(tail));
    OneLineJoin("--", name + (after + TailText(tail)));
    OneLineJoin(before, "--" + (name + (after + TailText(tail))));
  }

  lemma OpenedOneLine(opening: string, inner: string)
    requires OneLine(opening) && OneLine(inner)
    ensures OneLine(opening + inner + ")")
  {
    OneLineJoin(opening, inner);
    OneLineJoin(opening + inner, ")");
  }

  lemma ReferenceText(name: string, fallback: string)
    requires ValidName(name) && OneLine(fallback)
    ensures ValidFallback(Reference(name, fallback)) && Solid(Reference(name, fallback))
  {
    OneLineJoin("", fallback);
    OneLineJoin(",", "" + fallback);
    InsideOneLine("", name, "", Tail("", fallback));
    NoImportant("var(", Inside("", name, "", Tail("", fallback)));
    OpenedOneLine("var(", Inside("", name, "", Tail("", fallback)));
  }

  lemma OneLineJoin(a: string, b: string)
    requires OneLine(a) && OneLine(b)
    ensures OneLine(a + b)
  {}

  /** A reference with a one-line fallback is read as written. */
  lemma ReadReference(name: string, fallback: string)
    requires ValidName(name) && ValidFallback(fallback)
    ensures MatchVar(Normalize(Reference(name, fallback))) == Some(Ref(name, Some(fallback)))
    ensures ValidFallback(Reference(name, fallback)) && Trim(Reference(name, fallback)) == Reference(name, fallback)
  {
    ReadWritten("var(", "", name, "", Tail("", fallback));
    ReferenceText(name, fallback);
    TrimFixed(Reference(name, fallback));
  }

  /** For every undefined name and every plain fallback, `var(--x,var(--x,red))` is reported as a
      cycle on `x` although the unchecked resolver returns `red`. */
  lemma FalseCycle(env: Env, name: string, text: string)
    requires ValidName(name) && Def(env, name).None?
    requires ValidFallback(text) && Trim(text) == text && MatchVar(Normalize(text)).None?
    ensures var raw := Reference(name, Reference(name, text));
            && Checked(EnvSystem(env), raw, {}) == Cycle(name)
            && Returns(EnvSystem(env).step, raw, Value(Normalize(text)))
  {
    var sys, inner := EnvSystem(env), Reference(name, text);
    ReadReference(name, text);
    ReadReference(name, inner);
    assert sys.step(inner) == Goto(text) && sys.step(text) == Done(Normalize(text));
    assert Unchecked(sys.step, text, 1) == Some(Value(Normalize(text)));
    GotoOutcome(sys.step, inner, text);
    GotoOutcome(sys.step, Reference(name, inner), inner);
    assert Checked(sys, Reference(name, inner), {}) == Checked(sys, inner, {} + {name});
  }
}
