/** The customizer's store as it is updated in place, and the removal of phantom overrides at startup. */
module CustomizerStore {
  import opened Common
  import opened Customizer

  // ---- phantom overrides ----

  /** An empty array or an empty object. */
  predicate Hollow(v: Json) { v == JArr([]) || v == JObj([]) }

  /** A stored field that repeats the server's value, or is hollow where the server has no section. */
  predicate Phantom(u: Setup, s: string, k: string, v: Option<Json>) {
    s in u.sectionList && v.Some? && (if s in u.server.sections then Field(u.server, s, k) == v else Hollow(v.value))
  }

  predicate PhantomTop(u: Setup, k: string, v: Option<Json>) {
    k in u.scalarList && v.Some? && Scalar(u.server, k) == v
  }

  function SweepSection(u: Setup, s: string, sec: Section): (r: Section) {
    map k | k in sec && !Phantom(u, s, k, Some(sec[k])) :: sec[k]
  }

  function Sweep(u: Setup, d: Config): (r: Config) {
    Config(DropEmpty(map s | s in d.sections :: SweepSection(u, s, d.sections[s]), s => s in u.sectionList),
           map k | k in d.scalars && !PhantomTop(u, k, Some(d.scalars[k])) :: d.scalars[k])
  }

  /** What cleanup leaves in storage: nothing is written unless something was removed. */
  function CleanedUp(u: Setup, d: Config): (r: Config) { if Sweep(u, d) == d then d else Validate(u, Sweep(u, d)) }

  predicate Changed(u: Setup, d: Config) { Sweep(u, d) != d }

  lemma SweepField(u: Setup, d: Config, s: string, k: string)
    ensures Field(Sweep(u, d), s, k) == if Phantom(u, s, k, Field(d, s, k)) then None else Field(d, s, k)
  {
    var m := map s | s in d.sections :: SweepSection(u, s, d.sections[s]);
    DropEmptyField(m, s => s in u.sectionList, Sweep(u, d).scalars, s, k);
    assert s in m <==> s in d.sections;
  }

  lemma CleanedUpField(u: Setup, d: Config, s: string, k: string)
    ensures Field(CleanedUp(u, d), s, k)
            == if !Changed(u, d) then Field(d, s, k)
               else if Phantom(u, s, k, Field(d, s, k)) then None else Cleaned(u, s, k, Field(d, s, k))
  {
    SweepField(u, d, s, k);
    ValidateField(u, Sweep(u, d), s, k);
  }

  lemma CleanedUpScalar(u: Setup, d: Config, k: string)
    ensures Scalar(CleanedUp(u, d), k)
            == if !Changed(u, d) then Scalar(d, k)
               else if PhantomTop(u, k, Scalar(d, k)) then None else CleanedTop(u, k, Scalar(d, k))
  {
    ValidateScalar(u, Sweep(u, d), k);
  }

  lemma UnchangedHasNoPhantom(u: Setup, d: Config, s: string, k: string)
    requires !Changed(u, d)
    ensures !Phantom(u, s, k, Field(d, s, k)) && !PhantomTop(u, k, Scalar(d, k))
  {
    SweepField(u, d, s, k);
    assert PhantomTop(u, k, Scalar(d, k)) ==> Scalar(Sweep(u, d), k) != Scalar(d, k);
  }

  /** In a section the server defines, cleanup keeps the effective value of a field, unless something
      else is removed and the stored value is one that validation alters. */
  lemma ServerSectionKeptIff(u: Setup, d: Config, s: string, k: string)
    requires Lawful(u) && s in u.server.sections
    ensures Field(ComputeEffective(u, CleanedUp(u, d)), s, k) == Field(ComputeEffective(u, d), s, k)
            <==> || !Changed(u, d)
                 || Phantom(u, s, k, Field(d, s, k))
                 || Cleaned(u, s, k, Field(d, s, k)) == Field(d, s, k)
  {
    CleanedUpField(u, d, s, k);
    EffectiveFields(u, d, s, k);
    EffectiveFields(u, CleanedUp(u, d), s, k);
    KeptValueIff(u, s, k, Field(d, s, k));
  }

  lemma EffectiveFields(u: Setup, d: Config, s: string, k: string)
    ensures Field(ComputeEffective(u, d), s, k) == OrElse(Field(d, s, k), Field(Base(u), s, k))
  {
    OverlayField(Base(u), d, s, k);
  }

  lemma KeptValueIff(u: Setup, s: string, k: string, v: Option<Json>)
    requires Lawful(u) && s in u.server.sections
    ensures Phantom(u, s, k, v) ==> Field(Base(u), s, k) == v
    ensures !Phantom(u, s, k, v)
            ==> (OrElse(Cleaned(u, s, k, v), Field(Base(u), s, k)) == OrElse(v, Field(Base(u), s, k))
                <==> Cleaned(u, s, k, v) == v)
  {
  }

  /** A stored field that validation rejects loses its effect when another field is a phantom. */
  lemma RejectedFieldLost(u: Setup, d: Config, s: string, k: string, other: string)
    requires Lawful(u) && s in u.server.sections && Phantom(u, s, other, Field(d, s, other))
    requires Field(d, s, k).Some? && Field(d, s, k) != Field(u.server, s, k) && Cleaned(u, s, k, Field(d, s, k)).None?
    ensures Field(ComputeEffective(u, d), s, k) == Field(d, s, k)
    ensures Field(ComputeEffective(u, CleanedUp(u, d)), s, k) == Field(u.server, s, k)
  {
    RejectedFieldGoes(u, d, s, k, other);
    EffectiveFields(u, d, s, k);
    EffectiveFields(u, CleanedUp(u, d), s, k);
  }

  lemma RejectedFieldGoes(u: Setup, d: Config, s: string, k: string, other: string)
    requires Phantom(u, s, other, Field(d, s, other))
    requires Field(d, s, k).Some? && Cleaned(u, s, k, Field(d, s, k)).None?
    ensures Field(CleanedUp(u, d), s, k) == None
  {
    UnchangedOrPhantom(u, d, s, other);
    CleanedUpField(u, d, s, k);
  }

  /** So cleanup changes the effective accent colour where a stored text is no colour and the border
      repeats the server's. */
  lemma BadColorLost(d: Reader, home: Section, good: string, bad: string, border: string)
    requires !d.isColor(bad) && good != bad
    ensures var server := Config(map["theme" := map["accent" := JStr(good), "border" := JStr(border)]], map[]);
            var u := Standard(d, home, server);
            var stored := Config(map["theme" := map["accent" := JStr(bad), "border" := JStr(border)]], map[]);
            && Field(ComputeEffective(u, stored), "theme", "accent") == Some(JStr(bad))
            && Field(ComputeEffective(u, CleanedUp(u, stored)), "theme", "accent") == Some(JStr(good))
  {
    var server := Config(map["theme" := map["accent" := JStr(good), "border" := JStr(border)]], map[]);
    var u := Standard(d, home, server);
    StandardLawful(d, home, server);
    var stored := Config(map["theme" := map["accent" := JStr(bad), "border" := JStr(border)]], map[]);
    RejectedFieldLost(u, stored, "theme", "accent", "border");
  }

  lemma ScalarKeptIff(u: Setup, d: Config, k: string)
    requires Lawful(u)
    ensures Scalar(ComputeEffective(u, CleanedUp(u, d)), k) == Scalar(ComputeEffective(u, d), k)
            <==> !Changed(u, d) || PhantomTop(u, k, Scalar(d, k)) || CleanedTop(u, k, Scalar(d, k)) == Scalar(d, k)
  {
    CleanedUpScalar(u, d, k);
  }

  /** A stored field that cleanup drops where the server has no section. */
  predicate HollowAt(u: Setup, s: string, v: Option<Json>) { s in u.sectionList && v.Some? && Hollow(v.value) }

  /** Elsewhere, for every store: an empty array or object goes, every other field is kept or, if anything
      is removed, validated; and the effective value stays exactly if what goes repeats the default, or
      what stays is not altered by validation. On a validated store exactly the hollow fields go. */
  lemma UndefinedSectionLoses(u: Setup, d: Config, s: string, k: string)
    requires Lawful(u) && s !in u.server.sections
    ensures var v := Field(d, s, k);
            Field(CleanedUp(u, d), s, k)
            == if HollowAt(u, s, v) then None else if Changed(u, d) then Cleaned(u, s, k, v) else v
    ensures var v := Field(d, s, k);
            Field(ComputeEffective(u, CleanedUp(u, d)), s, k) == Field(ComputeEffective(u, d), s, k)
            <==> if HollowAt(u, s, v) then Field(Base(u), s, k) == v else !Changed(u, d) || Cleaned(u, s, k, v) == v
    ensures Validate(u, d) == d ==> Cleaned(u, s, k, Field(d, s, k)) == Field(d, s, k)
  {
    CleanedUpField(u, d, s, k);
    UnchangedOrPhantom(u, d, s, k);
    EffectiveFields(u, d, s, k);
    EffectiveFields(u, CleanedUp(u, d), s, k);
    ValidateField(u, d, s, k);
    if Cleaned(u, s, k, Field(d, s, k)) != Field(d, s, k) { UndefinedBase(u, s, k, Field(d, s, k)); }
  }

  /** Where the server has no section, there is no default behind a value that validation can alter. */
  lemma UndefinedBase(u: Setup, s: string, k: string, v: Option<Json>)
    requires Lawful(u) && s !in u.server.sections && Cleaned(u, s, k, v) != v
    ensures Field(Base(u), s, k) == None && v.Some?
  {
  }

  lemma UnchangedOrPhantom(u: Setup, d: Config, s: string, k: string)
    ensures Phantom(u, s, k, Field(d, s, k)) ==> Changed(u, d)
  {
    if !Changed(u, d) { UnchangedHasNoPhantom(u, d, s, k); }
  }

  /** Every write leaves a validated store, so the two results above apply after any write. */
  lemma ValidateTwice(u: Setup, d: Config)
    requires Lawful(u)
    ensures Validate(u, Validate(u, d)) == Validate(u, d)
  {
    var c := Validate(u, d);
    var m := map s | s in d.sections :: CleanSection(u, s, d.sections[s]);
    assert c.sections == DropEmpty(m, u.isChecked);
    forall s | s in c.sections ensures CleanSection(u, s, c.sections[s]) == c.sections[s] {
      assert c.sections[s] == CleanSection(u, s, d.sections[s]);
    }
    ValidateFixed(u, c);
  }

  lemma ValidateFixed(u: Setup, c: Config)
    requires forall s | s in c.sections :: CleanSection(u, s, c.sections[s]) == c.sections[s]
    requires forall s | s in c.sections && u.isChecked(s) :: c.sections[s] != map[]
    requires forall k | k in c.scalars :: u.cleanTop(k, c.scalars[k]) == Some(c.scalars[k])
    ensures Validate(u, c) == c
  {
    var m := map s | s in c.sections :: CleanSection(u, s, c.sections[s]);
    assert m == c.sections;
    assert DropEmpty(m, u.isChecked) == m;
    assert Validate(u, c).scalars == c.scalars;
  }

  // ---- cleaning up twice ----

  /** Validation turns some stored value that is no phantom into one. */
  ghost predicate Renormalizes(u: Setup, d: Config) {
    || (exists s, k :: !Phantom(u, s, k, Field(d, s, k)) && Phantom(u, s, k, Cleaned(u, s, k, Field(d, s, k))))
    || (exists k :: !PhantomTop(u, k, Scalar(d, k)) && PhantomTop(u, k, CleanedTop(u, k, Scalar(d, k))))
  }

  ghost predicate NoPhantoms(u: Setup, c: Config) {
    && (forall s, k :: !Phantom(u, s, k, Field(c, s, k)))
    && (forall k :: !PhantomTop(u, k, Scalar(c, k)))
  }

  lemma SweepFixed(u: Setup, c: Config)
    requires NoPhantoms(u, c)
    requires forall s | s in c.sections && s in u.sectionList :: c.sections[s] != map[]
    ensures !Changed(u, c)
  {
    var m := map s | s in c.sections :: SweepSection(u, s, c.sections[s]);
    forall s | s in c.sections ensures m[s] == c.sections[s] {
      forall k | k in c.sections[s] ensures !Phantom(u, s, k, Some(c.sections[s][k])) {
        assert Field(c, s, k) == Some(c.sections[s][k]);
      }
    }
    assert m == c.sections;
    assert DropEmpty(m, s => s in u.sectionList) == m;
    forall k | k in c.scalars ensures !PhantomTop(u, k, Some(c.scalars[k])) {
      assert Scalar(c, k) == Some(c.scalars[k]);
    }
    assert Sweep(u, c).scalars == c.scalars;
  }

  lemma NoEmptySections(u: Setup, d: Config, s: string)
    requires Lawful(u) && Changed(u, d) && s in CleanedUp(u, d).sections && s in u.sectionList
    ensures CleanedUp(u, d).sections[s] != map[]
  {
    var e := Sweep(u, d);
    assert e.sections[s] != map[];
    if !u.isChecked(s) {
      assert CleanSection(u, s, e.sections[s]) == e.sections[s];
    }
  }

  lemma CleanedUpPhantoms(u: Setup, d: Config)
    requires Lawful(u) && Changed(u, d)
    ensures NoPhantoms(u, CleanedUp(u, d)) <==> !Renormalizes(u, d)
  {
    forall s, k
      ensures Phantom(u, s, k, Field(CleanedUp(u, d), s, k))
              <==> !Phantom(u, s, k, Field(d, s, k)) && Phantom(u, s, k, Cleaned(u, s, k, Field(d, s, k)))
    {
      CleanedUpField(u, d, s, k);
    }
    forall k
      ensures PhantomTop(u, k, Scalar(CleanedUp(u, d), k))
              <==> !PhantomTop(u, k, Scalar(d, k)) && PhantomTop(u, k, CleanedTop(u, k, Scalar(d, k)))
    {
      CleanedUpScalar(u, d, k);
    }
  }

  lemma StableIff(u: Setup, c: Config)
    ensures CleanedUp(u, c) == c ==> NoPhantoms(u, c)
  {
    forall s, k ensures Phantom(u, s, k, Field(c, s, k)) ==> CleanedUp(u, c) != c {
      CleanedUpField(u, c, s, k);
      UnchangedOrPhantom(u, c, s, k);
    }
    forall k ensures PhantomTop(u, k, Scalar(c, k)) ==> CleanedUp(u, c) != c {
      CleanedUpScalar(u, c, k);
      if !Changed(u, c) { UnchangedHasNoPhantom(u, c, k, k); }
    }
  }

  /** A second cleanup changes nothing, except after a first one whose validation turned a stored value
      into the server's own (the text "0.5" into the number 0.5, say). */
  lemma IdempotentIff(u: Setup, d: Config)
    requires Lawful(u)
    ensures CleanedUp(u, CleanedUp(u, d)) == CleanedUp(u, d) <==> !(Changed(u, d) && Renormalizes(u, d))
  {
    var c := CleanedUp(u, d);
    if Changed(u, d) {
      CleanedUpPhantoms(u, d);
      if Renormalizes(u, d) {
        StableIff(u, c);
      } else {
        forall s | s in c.sections && s in u.sectionList ensures c.sections[s] != map[] { NoEmptySections(u, d, s); }
        SweepFixed(u, c);
      }
    }
  }

  /** One scalar is a phantom, another becomes one by validation: two cleanups are needed. */
  lemma TwoCleanups(u: Setup, d: Config, k: string, other: string)
    requires Lawful(u) && PhantomTop(u, other, Scalar(d, other))
    requires !PhantomTop(u, k, Scalar(d, k)) && PhantomTop(u, k, CleanedTop(u, k, Scalar(d, k)))
    ensures CleanedUp(u, CleanedUp(u, d)) != CleanedUp(u, d)
  {
    if !Changed(u, d) { UnchangedHasNoPhantom(u, d, other, other); }
    IdempotentIff(u, d);
  }

  /** The text of a number is stored where the server has the number, beside a plain phantom. */
  lemma NumberTextNeedsTwo(d: Reader, home: Section, text: string, n: real, live: real)
    requires d.parseFloat(text) == Some(n) && 0.0 <= n <= 1.0
    ensures var server := Config(map[], map["heatmapOpacity" := JNum(n), "liveHeatmapOpacity" := JNum(live)]);
            var u := Standard(d, home, server);
            var stored := Config(map[], map["heatmapOpacity" := JStr(text), "liveHeatmapOpacity" := JNum(live)]);
            CleanedUp(u, CleanedUp(u, stored)) != CleanedUp(u, stored)
  {
    var server := Config(map[], map["heatmapOpacity" := JNum(n), "liveHeatmapOpacity" := JNum(live)]);
    var u := Standard(d, home, server);
    StandardLawful(d, home, server);
    var stored := Config(map[], map["heatmapOpacity" := JStr(text), "liveHeatmapOpacity" := JNum(live)]);
    TwoCleanups(u, stored, "heatmapOpacity", "liveHeatmapOpacity");
  }

  /** A validated store, such as every write leaves, is cleaned up in one go. */
  lemma IdempotentOnceWritten(u: Setup, d: Config)
    requires Lawful(u) && Validate(u, d) == d
    ensures CleanedUp(u, CleanedUp(u, d)) == CleanedUp(u, d)
  {
    forall s, k ensures Cleaned(u, s, k, Field(d, s, k)) == Field(d, s, k) { ValidateField(u, d, s, k); }
    forall k ensures CleanedTop(u, k, Scalar(d, k)) == Scalar(d, k) { ValidateScalar(u, d, k); }
    IdempotentIff(u, d);
  }

  /** With no home section on the server, a list that the user emptied comes back at the next startup. */
  lemma EmptiedListComesBack(d: Reader, key: string, items: seq<Json>)
    requires items != []
    ensures var u := Standard(d, map[key := JArr(items)], EMPTY);
            var st := Fold(OpStep(u), State(EMPTY, EMPTY), [Set("home", key, JArr([])), Write]);
            && Field(ComputeEffective(u, st.stored), "home", key) == Some(JArr([]))
            && Field(ComputeEffective(u, CleanedUp(u, st.stored)), "home", key) == Some(JArr(items))
  {
    var u := Standard(d, map[key := JArr(items)], EMPTY);
    StandardLawful(d, map[key := JArr(items)], EMPTY);
    SetThenWrite(u, key, JArr([]));
    var stored := Fold(OpStep(u), State(EMPTY, EMPTY), [Set("home", key, JArr([])), Write]).stored;
    HollowGoes(u, stored, key);
  }

  lemma HollowGoes(u: Setup, d: Config, key: string)
    requires u.server == EMPTY && u.home in u.sectionList && Field(d, u.home, key) == Some(JArr([]))
    ensures Field(ComputeEffective(u, d), u.home, key) == Some(JArr([]))
    ensures Field(ComputeEffective(u, CleanedUp(u, d)), u.home, key) == Field(Base(u), u.home, key)
  {
    CleanedUpField(u, d, u.home, key);
    UnchangedOrPhantom(u, d, u.home, key);
    OverlayField(Base(u), d, u.home, key);
    OverlayField(Base(u), CleanedUp(u, d), u.home, key);
  }

  // ---- what cleanup removes ----

  /** Something is removed exactly if there is a phantom, or a section that the customizer edits is empty. */
  lemma ChangedIff(u: Setup, d: Config)
    ensures Changed(u, d)
            <==> || (exists s, k :: Phantom(u, s, k, Field(d, s, k)))
                 || (exists k :: PhantomTop(u, k, Scalar(d, k)))
                 || (exists s :: s in d.sections && s in u.sectionList && d.sections[s] == map[])
  {
    forall s, k | Phantom(u, s, k, Field(d, s, k)) ensures Changed(u, d) { UnchangedOrPhantom(u, d, s, k); }
    forall k | PhantomTop(u, k, Scalar(d, k)) ensures Changed(u, d) {
      if !Changed(u, d) { UnchangedHasNoPhantom(u, d, k, k); }
    }
    forall s | s in d.sections && s in u.sectionList && d.sections[s] == map[] ensures Changed(u, d) {
      EmptySwept(u, d, s);
    }
    if NoPhantoms(u, d) && forall s | s in d.sections && s in u.sectionList :: d.sections[s] != map[] {
      SweepFixed(u, d);
    }
  }

  lemma EmptySwept(u: Setup, d: Config, s: string)
    requires s in d.sections && s in u.sectionList && d.sections[s] == map[]
    ensures s !in Sweep(u, d).sections
  {
    assert SweepSection(u, s, d.sections[s]) == map[];
  }

  /** What cleanup leaves of a stored field: nothing if it repeats the server's value, or is an empty array
      or object where the server has no section; else the field, validated if anything was removed. */
  lemma CleanupStoresIff(u: Setup, d: Config, s: string, k: string, v: Json)
    ensures Field(CleanedUp(u, d), s, k) == Some(v)
            <==> exists w :: Field(d, s, k) == Some(w)
                   && (s in u.sectionList ==>
                         if s in u.server.sections then Field(u.server, s, k) != Some(w)
                         else w != JArr([]) && w != JObj([]))
                   && (if Changed(u, d) then u.clean(s, k, w) == Some(v) else v == w)
  {
    CleanedUpField(u, d, s, k);
    UnchangedOrPhantom(u, d, s, k);
    if Field(d, s, k).Some? { assert Field(d, s, k) == Some(Field(d, s, k).value); }
  }

  lemma CleanupStoresTopIff(u: Setup, d: Config, k: string, v: Plain)
    ensures Scalar(CleanedUp(u, d), k) == Some(v)
            <==> exists w: Plain :: Scalar(d, k) == Some(w)
                   && (k in u.scalarList ==> Scalar(u.server, k) != Some(w))
                   && (if Changed(u, d) then u.cleanTop(k, w) == Some(v) else v == w)
  {
    CleanedUpScalar(u, d, k);
    if !Changed(u, d) { UnchangedHasNoPhantom(u, d, k, k); }
    if Scalar(d, k).Some? { assert Scalar(d, k) == Some(Scalar(d, k).value); }
  }

  // ---- the store in place ----

  /** What is stored, and what was set since the last write. */
  class Store {
    const u: Setup
    var stored: Config
    var pending: Config

    constructor (u: Setup, stored: Config)
      ensures this.u == u && this.stored == stored && pending == EMPTY
    {
      this.u := u;
      this.stored := stored;
      this.pending := EMPTY;
    }

    method SetOverride(s: string, k: string, v: Json)
      modifies this`pending
      ensures State(stored, pending) == AfterOp(u, State(old(stored), old(pending)), Set(s, k, v))
    {
      if s !in pending.sections { pending := pending.(sections := pending.sections[s := map[]]); }
      pending := pending.(sections := pending.sections[s := pending.sections[s][k := v]]);
    }

    method SetTopOverride(k: string, v: Plain)
      modifies this`pending
      ensures State(stored, pending) == AfterOp(u, State(old(stored), old(pending)), SetTop(k, v))
    {
      pending := pending.(scalars := pending.scalars[k := v]);
    }

    /** Clearing takes effect at once. */
    method ClearOverride(s: string, k: string)
      modifies this
      ensures State(stored, pending) == AfterOp(u, State(old(stored), old(pending)), Clear(s, k))
    {
      var delta := Without(stored, s, k);
      pending := Without(pending, s, k);
      stored := Validate(u, delta);
    }

    method ClearTopOverride(k: string)
      modifies this
      ensures State(stored, pending) == AfterOp(u, State(old(stored), old(pending)), ClearTop(k))
    {
      var delta := WithoutScalar(stored, k);
      pending := WithoutScalar(pending, k);
      stored := Validate(u, delta);
    }

    /** The debounced write. */
    method Flush()
      modifies this
      ensures State(stored, pending) == AfterOp(u, State(old(stored), old(pending)), Write)
    {
      var all := Overlay(stored, pending);
      var written := pending;
      pending := EMPTY;
      var sections := PruneSections(u, all, written);
      var scalars := PruneScalars(u, all, written);
      stored := Validate(u, Config(sections, scalars));
    }

    /** Cleanup at startup. */
    method CleanPhantomOverrides()
      modifies this`stored
      ensures stored == CleanedUp(u, old(stored))
    {
      var sections := SweepSections(u, stored);
      var scalars := SweepScalars(u, stored);
      var delta := Config(sections, scalars);
      if delta != stored { stored := Validate(u, delta); }
    }
  }

  /** The fields among `keys` that equal the server's value are deleted one by one. */
  method DeleteMatching(sec: Section, keys: set<string>, server: Section) returns (r: Section)
    ensures r == PruneSection(sec, keys, server)
  {
    r := sec;
    var todo := keys;
    while todo != {}
      invariant todo <= keys && r == PruneSection(sec, keys - todo, server)
    {
      var k :| k in todo;
      todo := todo - {k};
      if k in sec && k in server && sec[k] == server[k] { r := r - {k}; }
    }
    assert keys - todo == keys;
  }

  /** The sections in `done` were replaced by their new contents, and dropped if those are empty. */
  ghost predicate Replaced(
      now: map<string, Section>, was: map<string, Section>, next: map<string, Section>, done: set<string>) {
    && was.Keys == next.Keys
    && (forall s :: s in now <==> s in was && !(s in done && next[s] == map[]))
    && (forall s | s in now :: now[s] == if s in done then next[s] else was[s])
  }

  /** Replaces one section. */
  function Replace(now: map<string, Section>, s: string, sec: Section): (r: map<string, Section>) {
    if sec == map[] then now - {s} else now[s := sec]
  }

  lemma ReplaceStep(
      now: map<string, Section>, was: map<string, Section>, next: map<string, Section>, done: set<string>, s: string)
    requires Replaced(now, was, next, done) && s in was
    ensures Replaced(Replace(now, s, next[s]), was, next, done + {s})
  {
  }

  lemma ReplacedAll(
      now: map<string, Section>, was: map<string, Section>, next: map<string, Section>, done: set<string>,
      sweeps: string -> bool)
    requires Replaced(now, was, next, done)
    requires forall s | s in was && s in done :: sweeps(s)
    requires forall s | s in was && s !in done :: next[s] == was[s] && !sweeps(s)
    ensures now == DropEmpty(next, sweeps)
  {
  }

  /** The sections just written lose the fields that equal the server's. */
  method PruneSections(u: Setup, d: Config, written: Config) returns (sections: map<string, Section>)
    requires written.sections.Keys <= d.sections.Keys
    ensures sections == Prune(u, d, written).sections
  {
    sections := d.sections;
    ghost var m := map s | s in d.sections :: PrunedSection(u, d, written, s);
    ghost var done := {};
    var todo := written.sections.Keys;
    while todo != {}
      invariant todo <= written.sections.Keys
      invariant done == set s | s in written.sections && s !in todo && s in u.sectionList
      invariant Replaced(sections, d.sections, m, done)
    {
      var s :| s in todo;
      todo := todo - {s};
      if s in u.sectionList {
        var sec := DeleteMatching(sections[s], written.sections[s].Keys, SectionOf(u.server, s));
        ReplaceStep(sections, d.sections, m, done, s);
        sections := Replace(sections, s, sec);
        done := done + {s};
      }
    }
    forall s | s in d.sections && s !in done ensures m[s] == d.sections[s] { PruneUnwritten(u, d, written, s); }
    ReplacedAll(sections, d.sections, m, done, s => s in u.sectionList && s in written.sections);
  }

  lemma PruneUnwritten(u: Setup, d: Config, written: Config, s: string)
    requires s in d.sections && !(s in written.sections && s in u.sectionList)
    ensures PrunedSection(u, d, written, s) == d.sections[s]
  {
  }

  method PruneScalars(u: Setup, d: Config, written: Config) returns (scalars: map<string, Plain>)
    ensures scalars == Prune(u, d, written).scalars
  {
    scalars := d.scalars;
    var left := written.scalars.Keys;
    while left != {}
      invariant left <= written.scalars.Keys
      invariant scalars
                == map k | k in d.scalars && !(k !in left && PrunesTop(u, k, Scalar(d, k), Scalar(written, k)))
                   :: d.scalars[k]
    {
      var k :| k in left;
      left := left - {k};
      if k in u.scalarList && k in scalars && k in u.server.scalars && scalars[k] == u.server.scalars[k] {
        scalars := scalars - {k};
      }
    }
  }

  /** Section by section, phantoms are deleted. */
  method SweepSections(u: Setup, d: Config) returns (sections: map<string, Section>)
    ensures sections == Sweep(u, d).sections
  {
    sections := d.sections;
    ghost var m := map s | s in d.sections :: SweepSection(u, s, d.sections[s]);
    ghost var done := {};
    for i := 0 to |u.sectionList|
      invariant done == set s | s in u.sectionList[..i]
      invariant Replaced(sections, d.sections, m, done)
    {
      var s := u.sectionList[i];
      assert u.sectionList[..i + 1] == u.sectionList[..i] + [s];
      if s in sections {
        SweepSectionTwice(u, s, d.sections[s]);
        var sec := DeletePhantoms(u, s, sections[s]);
        ReplaceStep(sections, d.sections, m, done, s);
        sections := Replace(sections, s, sec);
      }
      done := done + {s};
    }
    assert u.sectionList[..|u.sectionList|] == u.sectionList;
    forall s | s in d.sections && s !in done ensures m[s] == d.sections[s] { SweepUnlisted(u, s, d.sections[s]); }
    ReplacedAll(sections, d.sections, m, done, s => s in u.sectionList);
  }

  lemma SweepUnlisted(u: Setup, s: string, sec: Section)
    requires s !in u.sectionList
    ensures SweepSection(u, s, sec) == sec
  {
  }

  lemma SweepSectionTwice(u: Setup, s: string, sec: Section)
    ensures SweepSection(u, s, SweepSection(u, s, sec)) == SweepSection(u, s, sec)
  {
  }

  method SweepScalars(u: Setup, d: Config) returns (scalars: map<string, Plain>)
    ensures scalars == Sweep(u, d).scalars
  {
    scalars := d.scalars;
    for i := 0 to |u.scalarList|
      invariant scalars
                == map k | k in d.scalars && !(k in u.scalarList[..i] && PhantomTop(u, k, Some(d.scalars[k])))
                   :: d.scalars[k]
    {
      var k := u.scalarList[i];
      assert u.scalarList[..i + 1] == u.scalarList[..i] + [k];
      if k in scalars && k in u.server.scalars && scalars[k] == u.server.scalars[k] { scalars := scalars - {k}; }
    }
    assert u.scalarList[..|u.scalarList|] == u.scalarList;
  }

  method DeletePhantoms(u: Setup, s: string, sec: Section) returns (r: Section)
    requires s in u.sectionList
    ensures r == SweepSection(u, s, sec)
  {
    if s in u.server.sections {
      r := DeleteMatching(sec, sec.Keys, u.server.sections[s]);
    } else {
      r := sec;
      var todo := sec.Keys;
      while todo != {}
        invariant todo <= sec.Keys && r == map k | k in sec && (k in todo || !Hollow(sec[k])) :: sec[k]
      {
        var k :| k in todo;
        todo := todo - {k};
        if Hollow(sec[k]) { r := r - {k}; }
      }
    }
  }
}
