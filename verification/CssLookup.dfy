/** The two ways the stylesheet probes look up a custom property in an ordered list of blocks: scanning
    for the last block that declares it, and one dictionary filled by overwriting. */
module CssLookup {
  import opened Common
  import opened VarChase
  import opened CssTokens

  datatype Decl = Decl(name: string, value: string)

  type Block = seq<Decl>

  /** `inBlock`: the first declaration of the name. */
  function InBlock(b: Block, n: string): (v: Option<string>) {
    if b == [] then None else if b[0].name == n then Some(b[0].value) else InBlock(b[1..], n)
  }

  function NonEmpty(v: Option<string>): (r: Option<string>) { if v == Some("") then None else v }

  /** The last block whose declaration is not empty wins. */
  function LastWriter(blocks: seq<Block>, n: string): (v: Option<string>) {
    if blocks == [] then None
    else
      var v := NonEmpty(InBlock(blocks[|blocks| - 1], n));
      if v.Some? then v else LastWriter(blocks[..|blocks| - 1], n)
  }

  method LookupVar(blocks: seq<Block>, n: string) returns (v: Option<string>)
    ensures v == LastWriter(blocks, n)
  {
    v := None;
    for i := 0 to |blocks|
      invariant v == LastWriter(blocks[..i], n)
    {
      assert blocks[..i + 1][..i] == blocks[..i];
      var x := InBlock(blocks[i], n);
      if x.Some? && x.value != "" { v := x; }
    }
    assert blocks[..|blocks|] == blocks;
  }

  /** The dictionary after the declarations of a block. */
  function Overwrite(m: map<string, string>, b: Block): (r: map<string, string>) {
    if b == [] then m else Overwrite(m, b[..|b| - 1])[b[|b| - 1].name := b[|b| - 1].value]
  }

  function MapOf(blocks: seq<Block>): (m: map<string, string>) {
    if blocks == [] then map[] else Overwrite(MapOf(blocks[..|blocks| - 1]), blocks[|blocks| - 1])
  }

  method ExtractVarDecls(blocks: seq<Block>) returns (out: map<string, string>)
    ensures out == MapOf(blocks)
  {
    out := map[];
    for i := 0 to |blocks|
      invariant out == MapOf(blocks[..i])
    {
      ghost var before := out;
      var b := blocks[i];
      for k := 0 to |b|
        invariant out == Overwrite(before, b[..k])
      {
        assert b[..k + 1][..k] == b[..k];
        out := out[b[k].name := b[k].value];
      }
      assert b[..|b|] == b && blocks[..i + 1][..i] == blocks[..i];
    }
    assert blocks[..|blocks|] == blocks;
  }

  function Get(m: map<string, string>, n: string): (v: Option<string>) { if n in m then Some(m[n]) else None }

  // ---- what each of them finds ----

  /** The i-th declaration of the block is its first of the name. */
  ghost predicate IsFirst(b: Block, n: string, i: nat) {
    i < |b| && b[i].name == n && forall j :: 0 <= j < i ==> b[j].name != n
  }

  lemma {:induction false} InBlockIff(b: Block, n: string, v: string)
    ensures InBlock(b, n) == Some(v) <==> exists i: nat :: IsFirst(b, n, i) && b[i].value == v
  {
    if b != [] {
      InBlockIff(b[1..], n, v);
      if b[0].name == n {
        assert IsFirst(b, n, 0);
      } else {
        if i: nat :| IsFirst(b[1..], n, i) && b[1..][i].value == v { assert IsFirst(b, n, i + 1); }
        if i: nat :| IsFirst(b, n, i) && b[i].value == v {
          assert IsFirst(b[1..], n, i - 1) by { assert forall j :: 0 <= j < i - 1 ==> b[1..][j] == b[j + 1]; }
        }
      }
    }
  }

  /** Block k gives the text, and no later block gives any. */
  ghost predicate LastText(blocks: seq<Block>, n: string, v: string, k: nat) {
    && k < |blocks| && NonEmpty(InBlock(blocks[k], n)) == Some(v)
    && forall m :: k < m < |blocks| ==> NonEmpty(InBlock(blocks[m], n)).None?
  }

  lemma LastTextFront(blocks: seq<Block>, n: string, v: string, k: nat)
    requires blocks != [] && NonEmpty(InBlock(blocks[|blocks| - 1], n)).None?
    ensures LastText(blocks[..|blocks| - 1], n, v, k) <==> LastText(blocks, n, v, k)
  {
    assert forall m :: 0 <= m < |blocks| - 1 ==> blocks[..|blocks| - 1][m] == blocks[m];
  }

  /** The scan finds a text exactly if some block's first declaration of the name is that text, it is not
      empty, and no later block has a non-empty one. */
  lemma {:induction false} LastWriterIff(blocks: seq<Block>, n: string, v: string)
    ensures LastWriter(blocks, n) == Some(v) <==> exists k: nat :: LastText(blocks, n, v, k)
  {
    if blocks != [] {
      var last := |blocks| - 1;
      LastWriterIff(blocks[..last], n, v);
      if NonEmpty(InBlock(blocks[last], n)).Some? {
        if LastWriter(blocks, n) == Some(v) { assert LastText(blocks, n, v, last); }
      } else {
        forall k: nat ensures LastText(blocks[..last], n, v, k) <==> LastText(blocks, n, v, k) {
          LastTextFront(blocks, n, v, k);
        }
      }
    }
  }

  // ---- when the two agree ----

  ghost predicate OnceIn(b: Block, n: string) {
    forall i, j :: 0 <= i < j < |b| && b[i].name == n ==> b[j].name != n
  }

  /** No block declares the name twice. */
  ghost predicate DeclaredOnce(blocks: seq<Block>, n: string) {
    forall k :: 0 <= k < |blocks| ==> OnceIn(blocks[k], n)
  }

  /** What the last declaring block declares, empty or not. */
  ghost function LastDecl(blocks: seq<Block>, n: string): (v: Option<string>) {
    if blocks == [] then None
    else
      var v := InBlock(blocks[|blocks| - 1], n);
      if v.Some? then v else LastDecl(blocks[..|blocks| - 1], n)
  }

  lemma {:induction false} InBlockAbsent(b: Block, n: string)
    ensures InBlock(b, n).None? <==> forall i :: 0 <= i < |b| ==> b[i].name != n
  {
    if b != [] { InBlockAbsent(b[1..], n); }
  }

  lemma {:induction false} InBlockLast(b: Block, d: Decl, n: string)
    ensures InBlock(b + [d], n)
            == if InBlock(b, n).Some? then InBlock(b, n) else if d.name == n then Some(d.value) else None
  {
    if b == [] {
      assert b + [d] == [d] && [d][1..] == [];
    } else {
      assert (b + [d])[1..] == b[1..] + [d];
      InBlockLast(b[1..], d, n);
    }
  }

  /** The last declaration of the name in a block. */
  ghost function FinalIn(b: Block, n: string): (v: Option<string>) {
    if b == [] then None else if b[|b| - 1].name == n then Some(b[|b| - 1].value) else FinalIn(b[..|b| - 1], n)
  }

  /** The i-th declaration of the block is its last of the name, and gives the text. */
  ghost predicate IsFinal(b: Block, n: string, v: string, i: nat) {
    i < |b| && b[i] == Decl(n, v) && forall j :: i < j < |b| ==> b[j].name != n
  }

  lemma FinalFront(b: Block, n: string, v: string, i: nat)
    requires b != [] && b[|b| - 1].name != n
    ensures IsFinal(b[..|b| - 1], n, v, i) <==> IsFinal(b, n, v, i)
  {
    assert forall j :: 0 <= j < |b| - 1 ==> b[..|b| - 1][j] == b[j];
  }

  lemma {:induction false} FinalIff(b: Block, n: string, v: string)
    ensures FinalIn(b, n) == Some(v) <==> exists i: nat :: IsFinal(b, n, v, i)
  {
    if b != [] {
      var last := |b| - 1;
      FinalIff(b[..last], n, v);
      if b[last].name == n {
        if b[last].value == v { assert IsFinal(b, n, v, last); }
      } else {
        forall i: nat ensures IsFinal(b[..last], n, v, i) <==> IsFinal(b, n, v, i) { FinalFront(b, n, v, i); }
      }
    }
  }

  lemma {:induction false} OverwriteGet(m: map<string, string>, b: Block, n: string)
    ensures Get(Overwrite(m, b), n) == if FinalIn(b, n).Some? then FinalIn(b, n) else Get(m, n)
  {
    if b != [] { OverwriteGet(m, b[..|b| - 1], n); }
  }

  /** First and last declaration in a block exist together, and are the same one without double declarations. */
  lemma {:induction false} FirstAndFinal(b: Block, n: string)
    ensures InBlock(b, n).Some? <==> FinalIn(b, n).Some?
    ensures OnceIn(b, n) ==> InBlock(b, n) == FinalIn(b, n)
  {
    if b != [] {
      var front, d := b[..|b| - 1], b[|b| - 1];
      assert b == front + [d];
      InBlockLast(front, d, n);
      InBlockAbsent(front, n);
      FirstAndFinal(front, n);
    }
  }

  /** The last block that declares the name. */
  ghost function LastBlock(blocks: seq<Block>, n: string): (k: Option<nat>)
    ensures k.Some? ==> k.value < |blocks| && InBlock(blocks[k.value], n).Some?
  {
    if blocks == [] then None
    else if InBlock(blocks[|blocks| - 1], n).Some? then Some(|blocks| - 1)
    else LastBlock(blocks[..|blocks| - 1], n)
  }

  /** The dictionary holds the last declaration of the last block that declares the name. */
  lemma {:induction false} MapGet(blocks: seq<Block>, n: string)
    ensures var k := LastBlock(blocks, n);
            Get(MapOf(blocks), n) == if k.Some? then FinalIn(blocks[k.value], n) else None
  {
    if blocks != [] {
      MapGet(blocks[..|blocks| - 1], n);
      OverwriteGet(MapOf(blocks[..|blocks| - 1]), blocks[|blocks| - 1], n);
      FirstAndFinal(blocks[|blocks| - 1], n);
    }
  }

  /** Some block gives the name text that is not empty. */
  ghost predicate HasText(blocks: seq<Block>, n: string) {
    exists k :: 0 <= k < |blocks| && NonEmpty(InBlock(blocks[k], n)).Some?
  }

  lemma {:induction false} LastWriterSome(blocks: seq<Block>, n: string)
    ensures LastWriter(blocks, n).Some? <==> HasText(blocks, n)
  {
    if blocks != [] {
      var front, last := blocks[..|blocks| - 1], blocks[|blocks| - 1];
      LastWriterSome(front, n);
      if NonEmpty(InBlock(last, n)).Some? {
        assert HasText(blocks, n);
      } else {
        assert forall k :: 0 <= k < |front| ==> blocks[k] == front[k];
      }
    }
  }

  /** The scan looks at the first declaration of the last declaring block, and further back if that is empty. */
  lemma {:induction false} LastWriterIs(blocks: seq<Block>, n: string)
    ensures LastWriter(blocks, n)
            == match LastBlock(blocks, n)
               case None => None
               case Some(k) =>
                 if InBlock(blocks[k], n) != Some("") then InBlock(blocks[k], n) else LastWriter(blocks[..k], n)
  {
    if blocks != [] {
      var front, last := blocks[..|blocks| - 1], blocks[|blocks| - 1];
      if InBlock(last, n).None? {
        LastWriterIs(front, n);
        var k := LastBlock(front, n);
        if k.Some? { assert blocks[..k.value] == front[..k.value]; }
      }
    }
  }

  /** Scanning the blocks and looking the name up in their dictionary give the same. */
  ghost predicate Agree(blocks: seq<Block>, n: string) { LastWriter(blocks, n) == NonEmpty(Get(MapOf(blocks), n)) }

  /** For every block list, double declarations included: if the last declaration of the name is empty,
      scan and dictionary agree exactly if no block starts with text for it; otherwise exactly if the last
      declaring block's first declaration is that text too, or is empty and an earlier block gives that text. */
  lemma LookupsAgreeIff(blocks: seq<Block>, n: string)
    ensures Agree(blocks, n)
            <==> match LastBlock(blocks, n)
                 case None => true
                 case Some(k) =>
                   var first, final := InBlock(blocks[k], n), FinalIn(blocks[k], n);
                   if final == Some("") then !HasText(blocks, n)
                   else first == final || (first == Some("") && LastWriter(blocks[..k], n) == final)
  {
    MapGet(blocks, n);
    LastWriterIs(blocks, n);
    LastWriterSome(blocks, n);
    if LastBlock(blocks, n).Some? { FirstAndFinal(blocks[LastBlock(blocks, n).value], n); }
  }

  lemma {:induction false} LastDeclIs(blocks: seq<Block>, n: string)
    ensures LastDecl(blocks, n) == (match LastBlock(blocks, n) case None => None case Some(k) => InBlock(blocks[k], n))
  {
    if blocks != [] { LastDeclIs(blocks[..|blocks| - 1], n); }
  }

  /** Without double declarations scan and dictionary agree on a name, except exactly when its last
      declaration is empty and some other is not: the dictionary then forgets the name, the scan
      keeps the earlier text. */
  lemma LookupsAgree(blocks: seq<Block>, n: string)
    requires DeclaredOnce(blocks, n)
    ensures Agree(blocks, n) <==> !(LastDecl(blocks, n) == Some("") && HasText(blocks, n))
  {
    LookupsAgreeIff(blocks, n);
    LastDeclIs(blocks, n);
    if LastBlock(blocks, n).Some? { FirstAndFinal(blocks[LastBlock(blocks, n).value], n); }
  }

  /** Declaring a name again with no text separates the two. */
  lemma EmptyRedeclaration(n: string, text: string)
    requires text != ""
    ensures var blocks := [[Decl(n, text)], [Decl(n, "")]];
            DeclaredOnce(blocks, n) && LastWriter(blocks, n) == Some(text) && Get(MapOf(blocks), n) == Some("")
  {
    var a: Block, b: Block := [Decl(n, text)], [Decl(n, "")];
    var blocks: seq<Block> := [a, b];
    assert blocks[..1] == [a] && [a][..0] == [];
    assert InBlock(a, n) == Some(text) && InBlock(b, n) == Some("");
    MapGet(blocks, n);
    assert FinalIn(b, n) == Some("");
  }

  /** In one block the scan keeps the first declaration, the dictionary the last. */
  lemma DoubleDeclaration(n: string, first: string, second: string)
    requires first != "" && second != "" && first != second
    ensures var blocks := [[Decl(n, first), Decl(n, second)]];
            LastWriter(blocks, n) == Some(first) && NonEmpty(Get(MapOf(blocks), n)) == Some(second)
  {
    var b: Block := [Decl(n, first), Decl(n, second)];
    var blocks: seq<Block> := [b];
    assert blocks[..0] == [];
    assert InBlock(b, n) == Some(first);
    MapGet(blocks, n);
  }

  // ---- the resolvers on a stylesheet ----

  /** Definitions as the unchecked resolver finds them: theme blocks first, then root blocks. */
  function ScanDef(theme: seq<Block>, root: seq<Block>, n: string): (v: Option<string>) {
    var v := LastWriter(theme, n);
    if v.Some? then v else LastWriter(root, n)
  }

  lemma SameSteps(f: Lookup, g: Lookup, raw: string)
    requires NameOf(raw).Some? ==> f(NameOf(raw).value) == g(NameOf(raw).value)
    ensures StepOf(f, raw) == StepOf(g, raw)
  {}

  /** What the unchecked resolver over blocks does with a text. */
  function ScanStep(theme: seq<Block>, root: seq<Block>): (step: string -> Step) {
    var def: Lookup := n => ScanDef(theme, root, n);
    s => StepOf(def, s)
  }

  /** On every name met on the way from `raw`, the scanned blocks and the dictionaries agree. */
  ghost predicate AgreeAlong(env: Env, theme: seq<Block>, root: seq<Block>, raw: string) {
    forall k: nat, n: string :: Refers(EnvSystem(env), raw, k, n)
      ==> LastWriter(theme, n) == NonEmpty(Get(env.theme, n)) && LastWriter(root, n) == NonEmpty(Get(env.root, n))
  }

  lemma DefsAgree(env: Env, theme: seq<Block>, root: seq<Block>, n: string)
    requires LastWriter(theme, n) == NonEmpty(Get(env.theme, n)) && LastWriter(root, n) == NonEmpty(Get(env.root, n))
    ensures ScanDef(theme, root, n) == Def(env, n)
  {}

  lemma EnvAlong(env: Env, theme: seq<Block>, root: seq<Block>, raw: string)
    requires AgreeAlong(env, theme, root, raw)
    ensures StepsAlong(EnvSystem(env), ScanStep(theme, root), raw)
  {
    var sys := EnvSystem(env);
    forall k: nat | Orbit(sys.step, raw, k).Some?
      ensures ScanStep(theme, root)(Orbit(sys.step, raw, k).value) == sys.step(Orbit(sys.step, raw, k).value)
    {
      EnvStep(env, theme, root, raw, k);
    }
  }

  lemma EnvStep(env: Env, theme: seq<Block>, root: seq<Block>, raw: string, k: nat)
    requires AgreeAlong(env, theme, root, raw) && Orbit(EnvSystem(env).step, raw, k).Some?
    ensures var s := Orbit(EnvSystem(env).step, raw, k).value; ScanStep(theme, root)(s) == EnvSystem(env).step(s)
  {
    var s := Orbit(EnvSystem(env).step, raw, k).value;
    if NameOf(s).Some? {
      assert Refers(EnvSystem(env), raw, k, NameOf(s).value);
      DefsAgree(env, theme, root, NameOf(s).value);
    }
    SameSteps(n => ScanDef(theme, root, n), n => Def(env, n), s);
  }

  /** One probe scans brace-balanced blocks, the other fills its dictionaries from flat ones, so the
      blocks and the dictionaries are given separately. Where they agree on every name met on the way
      from `raw`, the unchecked resolver over blocks does what it would do over the dictionaries, and
      the checked resolver refines it. */
  lemma StylesheetRefines(env: Env, theme: seq<Block>, root: seq<Block>, raw: string)
    requires AgreeAlong(env, theme, root, raw)
    ensures forall fuel: nat :: Unchecked(ScanStep(theme, root), raw, fuel) == Unchecked(EnvSystem(env).step, raw, fuel)
    ensures var r := Checked(EnvSystem(env), raw, {});
            && (!r.Cycle? ==> Returns(ScanStep(theme, root), raw, r))
            && (r.Cycle? && Def(env, r.name).Some? ==> Diverges(ScanStep(theme, root), raw))
  {
    EnvAlong(env, theme, root, raw);
    RefinesAlong(EnvSystem(env), ScanStep(theme, root), raw);
  }
}
