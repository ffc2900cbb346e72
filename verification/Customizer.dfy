/** The customizer's settings: a sparse store of overrides on top of the server's configuration, with
    debounced writes, compared with a plain store that keeps a full copy of every setting. */
module Customizer {
  import opened Common

  /** A JSON value; objects keep the order of their fields, as their serialized comparison does. */
  datatype Json =
    | JNull | JBool(b: bool) | JNum(n: real) | JStr(s: string)
    | JArr(items: seq<Json>) | JObj(fields: seq<(string, Json)>)

  /** A value that can stand at top level without being a section. */
  type Plain = v: Json | !v.JArr? && !v.JObj? witness JNull

  type Section = map<string, Json>

  /** Object sections and top-level scalars, of the server's configuration or of a delta. */
  datatype Config = Config(sections: map<string, Section>, scalars: map<string, Plain>)

  const EMPTY := Config(map[], map[])

  /** The sections that are validated field by field, all sections the customizer edits, and the scalars
      it edits; what validation keeps of a field and of a scalar; the home section and its built-in
      contents; and the server's configuration. */
  datatype Setup = Setup(
    isChecked: string -> bool,
    sectionList: seq<string>,
    scalarList: seq<string>,
    clean: (string, string, Json) -> Option<Json>,
    cleanTop: (string, Plain) -> Option<Plain>,
    home: string,
    defaultHome: Section,
    server: Config)

  // ---- reading ----

  function SectionOf(c: Config, s: string): (r: Section) { if s in c.sections then c.sections[s] else map[] }

  function Field(c: Config, s: string, k: string): (v: Option<Json>) {
    if k in SectionOf(c, s) then Some(SectionOf(c, s)[k]) else None
  }

  function Scalar(c: Config, k: string): (v: Option<Plain>) { if k in c.scalars then Some(c.scalars[k]) else None }

  /** The server's configuration, with the built-in home section if it has none. */
  function Base(u: Setup): (c: Config) {
    if u.home in u.server.sections then u.server
    else u.server.(sections := u.server.sections[u.home := u.defaultHome])
  }

  /** Section by section, field by field, the second configuration wins. */
  function Overlay(a: Config, b: Config): (c: Config) {
    Config(map s | s in a.sections.Keys + b.sections.Keys :: SectionOf(a, s) + SectionOf(b, s), a.scalars + b.scalars)
  }

  function ComputeEffective(u: Setup, overrides: Config): (c: Config) { Overlay(Base(u), overrides) }

  function OrElse(a: Option<Json>, b: Option<Json>): (r: Option<Json>) { if a.Some? then a else b }

  lemma OverlayField(a: Config, b: Config, s: string, k: string)
    ensures Field(Overlay(a, b), s, k) == OrElse(Field(b, s, k), Field(a, s, k))
  {
    assert s in Overlay(a, b).sections <==> s in a.sections || s in b.sections;
  }

  // ---- validation ----

  function InRange(n: Option<real>, hi: real): (r: bool) { n.Some? && 0.0 <= n.value <= hi }

  /** The colour and number recognizers. */
  datatype Reader = Reader(isColor: string -> bool, parseFloat: string -> Option<real>, toNumber: Json -> Option<real>)

  /** Strings are read as numbers; everything else is kept. */
  function Numeric(d: Reader, v: Json): (r: Option<Json>) {
    if v.JStr? then (if d.parseFloat(v.s).Some? then Some(JNum(d.parseFloat(v.s).value)) else None) else Some(v)
  }

  /** The number a value counts as in a comparison. */
  function Magnitude(d: Reader, v: Json): (r: Option<real>) {
    match v
    case JNum(n) => Some(n)
    case JBool(b) => Some(if b then 1.0 else 0.0)
    case _ => d.toNumber(v)
  }

  function CleanOpacity(d: Reader, v: Json): (r: Option<Plain>) {
    var n := Numeric(d, v);
    if n.Some? && n.value.JNum? && InRange(Some(n.value.n), 1.0) then Some(n.value) else None
  }

  function CleanWidth(d: Reader, v: Json): (r: Option<Json>) {
    var n := Numeric(d, v);
    if v != JNull && n.Some? && InRange(Magnitude(d, n.value), 10.0) then n else None
  }

  function KeepIf(b: bool, v: Json): (r: Option<Json>) { if b then Some(v) else None }

  predicate IsColorSection(s: string) { s in ["theme", "themeDark", "nodeColors", "typeColors"] }

  predicate IsCheckedSection(s: string) { IsColorSection(s) || s in ["timestamps", "markerStroke"] }

  const OBJECT_SECTIONS :=
    ["branding", "theme", "themeDark", "nodeColors", "typeColors", "home", "timestamps", "markerStroke"]

  const SCALAR_SECTIONS := ["heatmapOpacity", "liveHeatmapOpacity"]

  function CleanColor(d: Reader, s: string, k: string, v: Json): (r: Option<Json>) {
    KeepIf(v.JStr? && ((s in ["theme", "themeDark"] && k in ["font", "mono"]) || d.isColor(v.s)), v)
  }

  function CleanMarker(d: Reader, k: string, v: Json): (r: Option<Json>) {
    if k == "color" then KeepIf(v.JStr? && d.isColor(v.s), v)
    else if k == "width" then CleanWidth(d, v)
    else if k == "opacity" then CleanOpacity(d, v)
    else None
  }

  function CleanTimestamp(k: string, v: Json): (r: Option<Json>) {
    if k == "defaultMode" then KeepIf(v in [JStr("ago"), JStr("absolute")], v)
    else if k == "timezone" then KeepIf(v in [JStr("local"), JStr("utc")], v)
    else if k == "formatPreset" then KeepIf(v in [JStr("iso"), JStr("iso-seconds"), JStr("locale")], v)
    else if k == "customFormat" then KeepIf(v.JStr?, v)
    else Some(v)
  }

  function CleanField(d: Reader, s: string, k: string, v: Json): (r: Option<Json>) {
    if IsColorSection(s) then CleanColor(d, s, k, v)
    else if s == "markerStroke" then CleanMarker(d, k, v)
    else if s == "timestamps" then CleanTimestamp(k, v)
    else Some(v)
  }

  function CleanScalar(d: Reader, k: string, v: Plain): (r: Option<Plain>) {
    if k in SCALAR_SECTIONS then CleanOpacity(d, v) else Some(v)
  }

  // ---- what validation accepts ----

  /** An opacity is kept exactly if it is a number from 0 to 1, or a text that reads as one, which becomes it. */
  lemma OpacityIff(d: Reader, v: Json, w: Json)
    ensures CleanOpacity(d, v) == Some(w)
            <==> exists n :: 0.0 <= n <= 1.0 && w == JNum(n)
                   && (v == JNum(n) || (v.JStr? && d.parseFloat(v.s) == Some(n)))
  {
    if CleanOpacity(d, v) == Some(w) { assert w == JNum(w.n); }
  }

  /** A width is kept exactly if it counts as a number from 0 to 10; null does not, a text becomes its number. */
  lemma WidthIff(d: Reader, v: Json, w: Json)
    ensures CleanWidth(d, v) == Some(w)
            <==> match v
                 case JNull => false
                 case JStr(s) => d.parseFloat(s).Some? && 0.0 <= d.parseFloat(s).value <= 10.0
                                 && w == JNum(d.parseFloat(s).value)
                 case JNum(n) => 0.0 <= n <= 10.0 && w == v
                 case JBool(_) => w == v
                 case _ => d.toNumber(v).Some? && 0.0 <= d.toNumber(v).value <= 10.0 && w == v
  {
  }

  /** What a field may hold: any text, a colour, one of some texts, a width, an opacity, anything, nothing. */
  datatype Allowed = AnyText | ColorText | OneOf(texts: set<string>) | WidthValue | OpacityValue | Anything | Nothing

  function Keeps(d: Reader, allowed: Allowed, v: Json): (r: Option<Json>) {
    match allowed
    case AnyText => if v.JStr? then Some(v) else None
    case ColorText => if v.JStr? && d.isColor(v.s) then Some(v) else None
    case OneOf(texts) => if v.JStr? && v.s in texts then Some(v) else None
    case WidthValue => CleanWidth(d, v)
    case OpacityValue => CleanOpacity(d, v)
    case Anything => Some(v)
    case Nothing => None
  }

  /** The settings with a fixed meaning, as a table. */
  const TIMESTAMPS := map[
    "defaultMode" := OneOf({"ago", "absolute"}), "timezone" := OneOf({"local", "utc"}),
    "formatPreset" := OneOf({"iso", "iso-seconds", "locale"}), "customFormat" := AnyText]

  const MARKER := map["color" := ColorText, "width" := WidthValue, "opacity" := OpacityValue]

  /** In the colour sections every field is a colour but the two fonts; the table says the rest. */
  lemma ColorSectionsKeep(d: Reader, s: string, k: string, v: Json)
    requires s in {"theme", "themeDark", "nodeColors", "typeColors"}
    ensures CleanField(d, s, k, v)
            == Keeps(d, if s in {"theme", "themeDark"} && k in {"font", "mono"} then AnyText else ColorText, v)
  {
  }

  lemma MarkerKeeps(d: Reader, k: string, v: Json)
    ensures CleanField(d, "markerStroke", k, v) == Keeps(d, if k in MARKER then MARKER[k] else Nothing, v)
  {
  }

  lemma TimestampsKeep(d: Reader, k: string, v: Json)
    ensures CleanField(d, "timestamps", k, v) == Keeps(d, if k in TIMESTAMPS then TIMESTAMPS[k] else Anything, v)
  {
  }

  lemma OpacityScalars(d: Reader, k: string, v: Plain)
    requires k in {"heatmapOpacity", "liveHeatmapOpacity"}
    ensures CleanScalar(d, k, v) == Keeps(d, OpacityValue, v)
  {
  }

  /** Other sections, `branding` and `home` among them, and other scalars are not validated. */
  lemma OthersKept(d: Reader, s: string, k: string, v: Json, top: Plain)
    requires s !in {"theme", "themeDark", "nodeColors", "typeColors", "markerStroke", "timestamps"}
    requires k !in {"heatmapOpacity", "liveHeatmapOpacity"}
    ensures CleanField(d, s, k, v) == Some(v) && CleanScalar(d, k, top) == Some(top)
  {
  }

  /** The customizer as it is set up over a server configuration. */
  function Standard(d: Reader, defaultHome: Section, server: Config): (u: Setup) {
    Setup(IsCheckedSection, OBJECT_SECTIONS, SCALAR_SECTIONS,
          (s, k, v) => CleanField(d, s, k, v), (k, v) => CleanScalar(d, k, v),
          "home", defaultHome, server)
  }

  /** Cleaning settles in one pass, and leaves unlisted sections and scalars alone. */
  ghost predicate Lawful(u: Setup) {
    && (forall s, k, v :: u.clean(s, k, v).Some? ==> u.clean(s, k, u.clean(s, k, v).value) == u.clean(s, k, v))
    && (forall k, v :: u.cleanTop(k, v).Some? ==> u.cleanTop(k, u.cleanTop(k, v).value) == u.cleanTop(k, v))
    && (forall s :: u.isChecked(s) ==> s in u.sectionList)
    && (forall s, k, v :: !u.isChecked(s) ==> u.clean(s, k, v) == Some(v))
    && !u.isChecked(u.home)
    && (forall k, v :: k !in u.scalarList ==> u.cleanTop(k, v) == Some(v))
  }

  lemma StandardLawful(d: Reader, defaultHome: Section, server: Config)
    ensures Lawful(Standard(d, defaultHome, server))
  {
    forall s, k, v | CleanField(d, s, k, v).Some?
      ensures CleanField(d, s, k, CleanField(d, s, k, v).value) == CleanField(d, s, k, v)
    {
    }
  }

  function CleanSection(u: Setup, s: string, sec: Section): (r: Section) {
    map k | k in sec && u.clean(s, k, sec[k]).Some? :: u.clean(s, k, sec[k]).value
  }

  /** Empty sections disappear, among those that `sweeps` names. */
  function DropEmpty(m: map<string, Section>, sweeps: string -> bool): (r: map<string, Section>) {
    map s | s in m && !(sweeps(s) && m[s] == map[]) :: m[s]
  }

  function Validate(u: Setup, d: Config): (r: Config) {
    Config(DropEmpty(map s | s in d.sections :: CleanSection(u, s, d.sections[s]), u.isChecked),
           map k | k in d.scalars && u.cleanTop(k, d.scalars[k]).Some? :: u.cleanTop(k, d.scalars[k]).value)
  }

  lemma DropEmptyField(m: map<string, Section>, sweeps: string -> bool, sc: map<string, Plain>, s: string, k: string)
    ensures Field(Config(DropEmpty(m, sweeps), sc), s, k) == Field(Config(m, sc), s, k)
  {
    assert s in DropEmpty(m, sweeps) <==> s in m && !(sweeps(s) && m[s] == map[]);
  }

  /** Validation of an optional field and of an optional scalar. */
  function Cleaned(u: Setup, s: string, k: string, v: Option<Json>): (r: Option<Json>) {
    if v.Some? then u.clean(s, k, v.value) else None
  }

  function CleanedTop(u: Setup, k: string, v: Option<Plain>): (r: Option<Plain>) {
    if v.Some? then u.cleanTop(k, v.value) else None
  }

  lemma ValidateField(u: Setup, d: Config, s: string, k: string)
    ensures Field(Validate(u, d), s, k) == Cleaned(u, s, k, Field(d, s, k))
  {
    var m := map s | s in d.sections :: CleanSection(u, s, d.sections[s]);
    DropEmptyField(m, u.isChecked, Validate(u, d).scalars, s, k);
    assert s in m <==> s in d.sections;
  }

  lemma ValidateScalar(u: Setup, d: Config, k: string)
    ensures Scalar(Validate(u, d), k) == CleanedTop(u, k, Scalar(d, k))
  {
  }

  // ---- setting and clearing ----

  /** The named fields go when they equal the server's value. */
  function PruneSection(sec: Section, keys: set<string>, server: Section): (r: Section) {
    map k | k in sec && !(k in keys && k in server && server[k] == sec[k]) :: sec[k]
  }

  /** Fields just written that equal the server's value are not stored. */
  function Prune(u: Setup, d: Config, written: Config): (r: Config) {
    Config(DropEmpty(map s | s in d.sections :: PrunedSection(u, d, written, s),
                     s => s in u.sectionList && s in written.sections),
           map k | k in d.scalars && !PrunesTop(u, k, Scalar(d, k), Scalar(written, k)) :: d.scalars[k])
  }

  function PrunedSection(u: Setup, d: Config, written: Config, s: string): (r: Section) {
    if s !in u.sectionList then SectionOf(d, s)
    else PruneSection(SectionOf(d, s), SectionOf(written, s).Keys, SectionOf(u.server, s))
  }

  predicate Prunes(u: Setup, s: string, k: string, v: Option<Json>, written: Option<Json>) {
    s in u.sectionList && v.Some? && written.Some? && Field(u.server, s, k) == v
  }

  predicate PrunesTop(u: Setup, k: string, v: Option<Json>, written: Option<Json>) {
    k in u.scalarList && v.Some? && written.Some? && Scalar(u.server, k) == v
  }

  lemma PruneField(u: Setup, d: Config, written: Config, s: string, k: string)
    ensures Field(Prune(u, d, written), s, k)
            == if Prunes(u, s, k, Field(d, s, k), Field(written, s, k)) then None else Field(d, s, k)
  {
    var m := map s | s in d.sections :: PrunedSection(u, d, written, s);
    DropEmptyField(m, s => s in u.sectionList && s in written.sections, Prune(u, d, written).scalars, s, k);
    assert s in m <==> s in d.sections;
  }

  lemma PruneScalar(u: Setup, d: Config, written: Config, k: string)
    ensures Scalar(Prune(u, d, written), k)
            == if PrunesTop(u, k, Scalar(d, k), Scalar(written, k)) then None else Scalar(d, k)
  {
  }

  function Without(d: Config, s: string, k: string): (r: Config) {
    if s !in d.sections then d
    else
      var sec := d.sections[s] - {k};
      d.(sections := if sec == map[] then d.sections - {s} else d.sections[s := sec])
  }

  function WithoutScalar(d: Config, k: string): (r: Config) { d.(scalars := d.scalars - {k}) }

  lemma WithoutField(d: Config, s: string, k: string, s': string, k': string)
    ensures Field(Without(d, s, k), s', k') == if (s, k) == (s', k') then None else Field(d, s', k')
  {
    assert s in d.sections && k' in d.sections[s] && k' != k ==> k' in d.sections[s] - {k};
  }

  /** Clearing leaves no empty section behind. */
  lemma ClearDropsEmpty(d: Config, s: string, k: string)
    ensures s in Without(d, s, k).sections ==> Without(d, s, k).sections[s] != map[]
  {
  }

  datatype Op =
    | Set(s: string, k: string, v: Json) | SetTop(k: string, top: Plain)
    | Clear(s: string, k: string) | ClearTop(k: string)
    | Write

  /** What is stored, and what was set since the last write. */
  datatype State = State(stored: Config, pending: Config)

  function AfterOp(u: Setup, st: State, op: Op): (r: State) {
    match op
    case Set(s, k, v) =>
      st.(pending := st.pending.(sections := st.pending.sections[s := SectionOf(st.pending, s)[k := v]]))
    case SetTop(k, v) => st.(pending := st.pending.(scalars := st.pending.scalars[k := v]))
    case Clear(s, k) => State(Validate(u, Without(st.stored, s, k)), Without(st.pending, s, k))
    case ClearTop(k) => State(Validate(u, WithoutScalar(st.stored, k)), WithoutScalar(st.pending, k))
    case Write => State(Written(u, st), EMPTY)
  }

  function Written(u: Setup, st: State): (r: Config) {
    Validate(u, Prune(u, Overlay(st.stored, st.pending), st.pending))
  }

  /** The configuration in force once pending changes are written. */
  function Settled(u: Setup, st: State): (c: Config) { ComputeEffective(u, Written(u, st)) }

  // ---- the reference: a full copy of every setting ----

  datatype FullStore = FullStore(fields: map<(string, string), Json>, tops: map<string, Json>)

  function Put<K>(m: map<K, Json>, k: K, v: Option<Json>): (r: map<K, Json>) {
    if v.Some? then m[k := v.value] else m - {k}
  }

  function Get<K>(m: map<K, Json>, k: K): (v: Option<Json>) { if k in m then Some(m[k]) else None }

  /** Setting the server's own value is always accepted; anything else goes through validation, and a
      rejected value brings back the default. */
  function Accepted(u: Setup, s: string, k: string, v: Json): (r: Option<Json>) {
    if Field(u.server, s, k) == Some(v) then Some(v) else OrElse(u.clean(s, k, v), Field(Base(u), s, k))
  }

  function AcceptedTop(u: Setup, k: string, v: Plain): (r: Option<Json>) {
    if Scalar(u.server, k) == Some(v) then Some(v) else OrElse(u.cleanTop(k, v), Scalar(u.server, k))
  }

  /** Operations on the full copy: setting stores the accepted value, clearing stores the default. */
  function AfterFull(u: Setup, f: FullStore, op: Op): (r: FullStore) {
    match op
    case Set(s, k, v) => f.(fields := Put(f.fields, (s, k), Accepted(u, s, k, v)))
    case SetTop(k, v) => f.(tops := Put(f.tops, k, AcceptedTop(u, k, v)))
    case Clear(s, k) => f.(fields := Put(f.fields, (s, k), Field(Base(u), s, k)))
    case ClearTop(k) => f.(tops := Put(f.tops, k, Scalar(u.server, k)))
    case Write => f
  }

  ghost predicate Agree(c: Config, f: FullStore) {
    && (forall s, k :: Field(c, s, k) == Get(f.fields, (s, k)))
    && (forall k :: Scalar(c, k) == Get(f.tops, k))
  }

  /** One field of the settled configuration, from the pending, stored, server and default values alone. */
  function SettledValue(
      u: Setup, s: string, k: string, stored: Option<Json>, pending: Option<Json>): (v: Option<Json>) {
    if pending.Some? then Accepted(u, s, k, pending.value)
    else OrElse(Cleaned(u, s, k, stored), Field(Base(u), s, k))
  }

  function SettledTop(u: Setup, k: string, stored: Option<Plain>, pending: Option<Plain>): (v: Option<Json>) {
    if pending.Some? then AcceptedTop(u, k, pending.value)
    else OrElse(CleanedTop(u, k, stored), Scalar(u.server, k))
  }

  function WrittenValue(
      u: Setup, s: string, k: string, stored: Option<Json>, pending: Option<Json>): (v: Option<Json>) {
    if pending.None? then Cleaned(u, s, k, stored)
    else if Prunes(u, s, k, pending, pending) then None
    else Cleaned(u, s, k, pending)
  }

  function WrittenTop(u: Setup, k: string, stored: Option<Plain>, pending: Option<Plain>): (v: Option<Plain>) {
    if pending.None? then CleanedTop(u, k, stored)
    else if PrunesTop(u, k, pending, pending) then None
    else CleanedTop(u, k, pending)
  }

  lemma WrittenField(u: Setup, st: State, s: string, k: string)
    ensures Field(Written(u, st), s, k) == WrittenValue(u, s, k, Field(st.stored, s, k), Field(st.pending, s, k))
  {
    var all := Overlay(st.stored, st.pending);
    OverlayField(st.stored, st.pending, s, k);
    PruneField(u, all, st.pending, s, k);
    ValidateField(u, Prune(u, all, st.pending), s, k);
  }

  lemma WrittenScalar(u: Setup, st: State, k: string)
    ensures Scalar(Written(u, st), k) == WrittenTop(u, k, Scalar(st.stored, k), Scalar(st.pending, k))
  {
    var all := Overlay(st.stored, st.pending);
    PruneScalar(u, all, st.pending, k);
    ValidateScalar(u, Prune(u, all, st.pending), k);
  }

  /** What a write stores: a pending field in its validated form, unless it repeats the server's value in a
      section the customizer edits; and every other stored field, validated, even if it repeats the server's. */
  lemma WriteStoresIff(u: Setup, st: State, s: string, k: string, v: Json)
    ensures var stored, p := Field(st.stored, s, k), Field(st.pending, s, k);
            Field(Written(u, st), s, k) == Some(v)
            <==> if p.Some?
                 then u.clean(s, k, p.value) == Some(v) && !(s in u.sectionList && Field(u.server, s, k) == p)
                 else stored.Some? && u.clean(s, k, stored.value) == Some(v)
  {
    WrittenField(u, st, s, k);
  }

  lemma WriteStoresTopIff(u: Setup, st: State, k: string, v: Plain)
    ensures var stored, p := Scalar(st.stored, k), Scalar(st.pending, k);
            Scalar(Written(u, st), k) == Some(v)
            <==> if p.Some? then u.cleanTop(k, p.value) == Some(v) && !(k in u.scalarList && Scalar(u.server, k) == p)
                 else stored.Some? && u.cleanTop(k, stored.value) == Some(v)
  {
    WrittenScalar(u, st, k);
  }

  /** No validated section is stored empty. */
  lemma NoEmptyStored(u: Setup, d: Config, s: string)
    requires s in Validate(u, d).sections && u.isChecked(s)
    ensures Validate(u, d).sections[s] != map[]
  {
  }

  lemma SettledOfWritten(u: Setup, s: string, k: string, d: Option<Json>, p: Option<Json>)
    requires Lawful(u)
    ensures OrElse(WrittenValue(u, s, k, d, p), Field(Base(u), s, k)) == SettledValue(u, s, k, d, p)
  {
  }

  lemma SettledField(u: Setup, st: State, s: string, k: string)
    requires Lawful(u)
    ensures Field(Settled(u, st), s, k) == SettledValue(u, s, k, Field(st.stored, s, k), Field(st.pending, s, k))
  {
    WrittenField(u, st, s, k);
    OverlayField(Base(u), Written(u, st), s, k);
    SettledOfWritten(u, s, k, Field(st.stored, s, k), Field(st.pending, s, k));
  }

  lemma SettledScalar(u: Setup, st: State, k: string)
    requires Lawful(u)
    ensures Scalar(Settled(u, st), k) == SettledTop(u, k, Scalar(st.stored, k), Scalar(st.pending, k))
  {
    WrittenScalar(u, st, k);
  }

  /** How one operation moves the stored and the pending value of one field. */
  function MovedPending(op: Op, s: string, k: string, p: Option<Json>): (r: Option<Json>) {
    match op
    case Set(s', k', v) => if (s', k') == (s, k) then Some(v) else p
    case Clear(s', k') => if (s', k') == (s, k) then None else p
    case Write => None
    case _ => p
  }

  function MovedStored(u: Setup, op: Op, s: string, k: string, d: Option<Json>, p: Option<Json>): (r: Option<Json>) {
    match op
    case Clear(s', k') => if (s', k') == (s, k) then None else Cleaned(u, s, k, d)
    case ClearTop(_) => Cleaned(u, s, k, d)
    case Write => WrittenValue(u, s, k, d, p)
    case _ => d
  }

  lemma OpField(u: Setup, st: State, op: Op, s: string, k: string)
    ensures Field(AfterOp(u, st, op).pending, s, k) == MovedPending(op, s, k, Field(st.pending, s, k))
    ensures Field(AfterOp(u, st, op).stored, s, k)
            == MovedStored(u, op, s, k, Field(st.stored, s, k), Field(st.pending, s, k))
  {
    match op
    case Set(s', k', v) =>
    case SetTop(k', v) =>
    case Clear(s', k') =>
      WithoutField(st.stored, s', k', s, k);
      WithoutField(st.pending, s', k', s, k);
      ValidateField(u, Without(st.stored, s', k'), s, k);
    case ClearTop(k') => ValidateField(u, WithoutScalar(st.stored, k'), s, k);
    case Write => WrittenField(u, st, s, k);
  }

  function MovedPendingTop(op: Op, k: string, p: Option<Plain>): (r: Option<Plain>) {
    match op
    case SetTop(k', v) => if k' == k then Some(v) else p
    case ClearTop(k') => if k' == k then None else p
    case Write => None
    case _ => p
  }

  function MovedStoredTop(u: Setup, op: Op, k: string, d: Option<Plain>, p: Option<Plain>): (r: Option<Plain>) {
    match op
    case ClearTop(k') => if k' == k then None else CleanedTop(u, k, d)
    case Clear(_, _) => CleanedTop(u, k, d)
    case Write => WrittenTop(u, k, d, p)
    case _ => d
  }

  lemma OpScalar(u: Setup, st: State, op: Op, k: string)
    ensures Scalar(AfterOp(u, st, op).pending, k) == MovedPendingTop(op, k, Scalar(st.pending, k))
    ensures Scalar(AfterOp(u, st, op).stored, k)
            == MovedStoredTop(u, op, k, Scalar(st.stored, k), Scalar(st.pending, k))
  {
    match op
    case Set(s', k', v) =>
    case SetTop(k', v) =>
    case Clear(s', k') => ValidateScalar(u, Without(st.stored, s', k'), k);
    case ClearTop(k') => ValidateScalar(u, WithoutScalar(st.stored, k'), k);
    case Write => WrittenScalar(u, st, k);
  }

  /** One operation seen from one field: both stores move together. */
  lemma ValueStep(u: Setup, f: FullStore, op: Op, s: string, k: string, d: Option<Json>, p: Option<Json>)
    requires Lawful(u) && SettledValue(u, s, k, d, p) == Get(f.fields, (s, k))
    ensures SettledValue(u, s, k, MovedStored(u, op, s, k, d, p), MovedPending(op, s, k, p))
            == Get(AfterFull(u, f, op).fields, (s, k))
  {
  }

  lemma TopStep(u: Setup, f: FullStore, op: Op, k: string, d: Option<Plain>, p: Option<Plain>)
    requires Lawful(u) && SettledTop(u, k, d, p) == Get(f.tops, k)
    ensures SettledTop(u, k, MovedStoredTop(u, op, k, d, p), MovedPendingTop(op, k, p))
            == Get(AfterFull(u, f, op).tops, k)
  {
  }

  /** The sparse state settles to the full copy. */
  ghost predicate Holds(u: Setup, st: State, f: FullStore) {
    && (forall s, k :: SettledValue(u, s, k, Field(st.stored, s, k), Field(st.pending, s, k)) == Get(f.fields, (s, k)))
    && (forall k :: SettledTop(u, k, Scalar(st.stored, k), Scalar(st.pending, k)) == Get(f.tops, k))
  }

  ghost predicate Moves(u: Setup, st: State, op: Op, st': State) {
    && (forall s, k :: Field(st'.pending, s, k) == MovedPending(op, s, k, Field(st.pending, s, k)))
    && (forall s, k ::
          Field(st'.stored, s, k) == MovedStored(u, op, s, k, Field(st.stored, s, k), Field(st.pending, s, k)))
    && (forall k :: Scalar(st'.pending, k) == MovedPendingTop(op, k, Scalar(st.pending, k)))
    && (forall k :: Scalar(st'.stored, k) == MovedStoredTop(u, op, k, Scalar(st.stored, k), Scalar(st.pending, k)))
  }

  lemma OpMoves(u: Setup, st: State, op: Op)
    ensures Moves(u, st, op, AfterOp(u, st, op))
  {
    forall s, k
      ensures Field(AfterOp(u, st, op).pending, s, k) == MovedPending(op, s, k, Field(st.pending, s, k))
      ensures Field(AfterOp(u, st, op).stored, s, k)
              == MovedStored(u, op, s, k, Field(st.stored, s, k), Field(st.pending, s, k))
    {
      OpField(u, st, op, s, k);
    }
    forall k
      ensures Scalar(AfterOp(u, st, op).pending, k) == MovedPendingTop(op, k, Scalar(st.pending, k))
      ensures Scalar(AfterOp(u, st, op).stored, k)
              == MovedStoredTop(u, op, k, Scalar(st.stored, k), Scalar(st.pending, k))
    {
      OpScalar(u, st, op, k);
    }
  }

  lemma HoldsStep(u: Setup, st: State, f: FullStore, op: Op, st': State, f': FullStore)
    requires Lawful(u) && Holds(u, st, f) && Moves(u, st, op, st') && f' == AfterFull(u, f, op)
    ensures Holds(u, st', f')
  {
    forall s, k
      ensures SettledValue(u, s, k, Field(st'.stored, s, k), Field(st'.pending, s, k)) == Get(f'.fields, (s, k))
    {
      ValueStep(u, f, op, s, k, Field(st.stored, s, k), Field(st.pending, s, k));
    }
    forall k ensures SettledTop(u, k, Scalar(st'.stored, k), Scalar(st'.pending, k)) == Get(f'.tops, k) {
      TopStep(u, f, op, k, Scalar(st.stored, k), Scalar(st.pending, k));
    }
  }

  function OpStep(u: Setup): (step: (State, Op) -> State) { (st, op) => AfterOp(u, st, op) }

  function FullStep(u: Setup): (step: (FullStore, Op) -> FullStore) { (f, op) => AfterFull(u, f, op) }

  lemma {:induction false} RunHolds(
      u: Setup, st: State, f: FullStore, ops: seq<Op>, step: (State, Op) -> State, full: (FullStore, Op) -> FullStore)
    requires Lawful(u) && Holds(u, st, f)
    requires forall st, op :: Moves(u, st, op, step(st, op))
    requires forall f, op :: full(f, op) == AfterFull(u, f, op)
    ensures Holds(u, Fold(step, st, ops), Fold(full, f, ops))
  {
    if ops != [] {
      var most, last := ops[..|ops| - 1], ops[|ops| - 1];
      RunHolds(u, st, f, most, step, full);
      HoldsStep(u, Fold(step, st, most), Fold(full, f, most), last, Fold(step, st, ops), Fold(full, f, ops));
    }
  }

  lemma HoldsAgree(u: Setup, st: State, f: FullStore)
    requires Lawful(u)
    ensures Holds(u, st, f) <==> Agree(Settled(u, st), f)
  {
    forall s, k
      ensures Field(Settled(u, st), s, k) == SettledValue(u, s, k, Field(st.stored, s, k), Field(st.pending, s, k))
    {
      SettledField(u, st, s, k);
    }
    forall k ensures Scalar(Settled(u, st), k) == SettledTop(u, k, Scalar(st.stored, k), Scalar(st.pending, k)) {
      SettledScalar(u, st, k);
    }
  }

  /** Whatever was stored at first and whatever is set, cleared and written in whatever order, the
      sparse store settles to the configuration that the full copy holds. */
  lemma SparseEqualsFull(d: Reader, home: Section, server: Config, st: State, f: FullStore, ops: seq<Op>)
    requires Agree(Settled(Standard(d, home, server), st), f)
    ensures var u := Standard(d, home, server);
            Agree(Settled(u, Fold(OpStep(u), st, ops)), Fold(FullStep(u), f, ops))
  {
    StandardLawful(d, home, server);
    GenericRun(Standard(d, home, server), st, f, ops);
  }

  lemma GenericRun(u: Setup, st: State, f: FullStore, ops: seq<Op>)
    requires Lawful(u) && Agree(Settled(u, st), f)
    ensures Agree(Settled(u, Fold(OpStep(u), st, ops)), Fold(FullStep(u), f, ops))
  {
    HoldsAgree(u, st, f);
    forall st, op ensures Moves(u, st, op, OpStep(u)(st, op)) { OpMoves(u, st, op); }
    RunHolds(u, st, f, ops, OpStep(u), FullStep(u));
    HoldsAgree(u, Fold(OpStep(u), st, ops), Fold(FullStep(u), f, ops));
  }

  // ---- the override marker ----

  predicate IsOverridden(u: Setup, stored: Config, s: string, k: string) {
    Field(stored, s, k).Some? && Field(stored, s, k) != Field(u.server, s, k)
  }

  predicate IsTopOverridden(u: Setup, stored: Config, k: string) {
    Scalar(stored, k).Some? && Scalar(stored, k) != Scalar(u.server, k)
  }

  /** The stored value repeats the built-in home section because the server sends none. */
  predicate RepeatsBuiltIn(u: Setup, stored: Config, s: string, k: string) {
    s == u.home && u.home !in u.server.sections && k in u.defaultHome && Field(stored, s, k) == Some(u.defaultHome[k])
  }

  /** A field is marked as overridden exactly when its effective value differs from the default, with
      one exception: a stored value that repeats the built-in home section is marked all the same. */
  lemma MarkedIff(u: Setup, stored: Config, s: string, k: string)
    ensures (IsOverridden(u, stored, s, k) <==> Field(ComputeEffective(u, stored), s, k) != Field(Base(u), s, k))
            <==> !RepeatsBuiltIn(u, stored, s, k)
  {
    OverlayField(Base(u), stored, s, k);
  }

  lemma TopMarkedIff(u: Setup, stored: Config, k: string)
    ensures IsTopOverridden(u, stored, k) <==> Scalar(ComputeEffective(u, stored), k) != Scalar(Base(u), k)
  {
  }

  /** Typing the built-in text back in leaves the field marked although nothing differs. */
  lemma BuiltInRepeatMarked(d: Reader, key: string, text: Json)
    ensures var u := Standard(d, map[key := text], EMPTY);
            var st := Fold(OpStep(u), State(EMPTY, EMPTY), [Set("home", key, text), Write]);
            && IsOverridden(u, st.stored, "home", key)
            && Field(ComputeEffective(u, st.stored), "home", key) == Field(Base(u), "home", key)
  {
    StandardLawful(d, map[key := text], EMPTY);
    HomeRepeat(Standard(d, map[key := text], EMPTY), key, text);
  }

  lemma HomeRepeat(u: Setup, key: string, text: Json)
    requires Lawful(u) && u.server == EMPTY && u.defaultHome == map[key := text]
    ensures var st := Fold(OpStep(u), State(EMPTY, EMPTY), [Set(u.home, key, text), Write]);
            && IsOverridden(u, st.stored, u.home, key)
            && Field(ComputeEffective(u, st.stored), u.home, key) == Field(Base(u), u.home, key)
  {
    SetThenWrite(u, key, text);
    var st := Fold(OpStep(u), State(EMPTY, EMPTY), [Set(u.home, key, text), Write]);
    MarkedIff(u, st.stored, u.home, key);
  }

  /** A value set in the home section where the server has none is stored as it is. */
  lemma SetThenWrite(u: Setup, key: string, v: Json)
    requires Lawful(u) && u.server == EMPTY
    ensures Field(Fold(OpStep(u), State(EMPTY, EMPTY), [Set(u.home, key, v), Write]).stored, u.home, key) == Some(v)
  {
    var start, op := State(EMPTY, EMPTY), Set(u.home, key, v);
    TwoSteps(OpStep(u), start, op, Write);
    OpField(u, start, op, u.home, key);
    OpField(u, AfterOp(u, start, op), Write, u.home, key);
  }

  lemma TwoSteps(step: (State, Op) -> State, st: State, a: Op, b: Op)
    ensures Fold(step, st, [a, b]) == step(step(st, a), b)
  {
    assert [a, b][..1] == [a] && [a][..0] == [];
    assert Fold(step, st, [a]) == step(Fold(step, st, []), a);
  }
}
