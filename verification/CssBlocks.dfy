/** The brace-balanced block scanner of the stylesheet probes. Where a selector's regular expression
    matched is an input: the positions just after the opening brace of each match. */
module CssBlocks {
  import opened Common

  // ---- nesting depth ----

  function Delta(c: char): (d: int) { if c == '{' then 1 else if c == '}' then -1 else 0 }

  /** Opening minus closing braces. */
  ghost function Net(s: string): (d: int) {
    if s == "" then 0 else Net(s[..|s| - 1]) + Delta(s[|s| - 1])
  }

  ghost predicate NonNegative(s: string) { forall k :: 0 <= k <= |s| ==> Net(s[..k]) >= 0 }

  /** No prefix closes more than it opened, and in the end everything is closed. */
  ghost predicate Balanced(s: string) { Net(s) == 0 && NonNegative(s) }

  /** The brace at `end` closes the block whose body starts at `start`. */
  ghost predicate Closes(css: string, start: nat, end: nat) {
    start <= end < |css| && css[end] == '}' && Balanced(css[start..end])
  }

  lemma {:induction false} NetConcat(a: string, b: string)
    ensures Net(a + b) == Net(a) + Net(b)
  {
    if b == "" {
      assert a + b == a;
    } else {
      assert (a + b)[..|a + b| - 1] == a + b[..|b| - 1];
      NetConcat(a, b[..|b| - 1]);
    }
  }

  lemma NetSplit(css: string, i: nat, j: nat, k: nat)
    requires i <= j <= k <= |css|
    ensures Net(css[i..k]) == Net(css[i..j]) + Net(css[j..k])
  {
    assert css[i..k] == css[i..j] + css[j..k];
    NetConcat(css[i..j], css[j..k]);
  }

  /** Depth inside a body, read off the body itself. */
  lemma BodyDepth(css: string, start: nat, end: nat, j: nat)
    requires Closes(css, start, end) && start <= j <= end
    ensures Net(css[start..j]) >= 0
  {
    assert css[start..end][..j - start] == css[start..j];
  }

  // ---- the scanner ----

  /** The position of the brace at which the depth reaches zero. */
  function Scan(css: string, i: nat, depth: nat): (end: Option<nat>)
    requires i <= |css| && depth > 0
    decreases |css| - i
  {
    if i == |css| then None
    else
      var d := depth + Delta(css[i]);
      if d == 0 then Some(i) else Scan(css, i + 1, d)
  }

  lemma {:induction false} ScanFrom(css: string, start: nat, i: nat, depth: nat)
    requires start <= i <= |css| && depth == 1 + Net(css[start..i]) && depth > 0
    requires NonNegative(css[start..i])
    ensures Scan(css, i, depth).Some? ==> Closes(css, start, Scan(css, i, depth).value)
    ensures Scan(css, i, depth).None? ==> forall j :: i <= j <= |css| ==> Net(css[start..j]) >= 0
    decreases |css| - i
  {
    if i < |css| {
      NetStep(css, start, i);
      if depth + Delta(css[i]) != 0 {
        Extend(css, start, i);
        ScanFrom(css, start, i + 1, depth + Delta(css[i]));
      }
    }
  }

  lemma NetStep(css: string, start: nat, i: nat)
    requires start <= i < |css|
    ensures Net(css[start..i + 1]) == Net(css[start..i]) + Delta(css[i])
  {
    assert css[start..i + 1][..i - start] == css[start..i];
  }

  lemma Extend(css: string, start: nat, i: nat)
    requires start <= i < |css| && NonNegative(css[start..i]) && Net(css[start..i + 1]) >= 0
    ensures NonNegative(css[start..i + 1])
  {
    var s := css[start..i + 1];
    forall k | 0 <= k <= |s| ensures Net(s[..k]) >= 0 {
      if k < |s| { assert s[..k] == css[start..i][..k]; } else { assert s[..k] == s; }
    }
  }

  /** A body ends at one brace only. */
  lemma ClosesUnique(css: string, start: nat, e1: nat, e2: nat)
    requires Closes(css, start, e1) && Closes(css, start, e2)
    ensures e1 == e2
  {
    var lo, hi := if e1 < e2 then e1 else e2, if e1 < e2 then e2 else e1;
    if lo < hi {
      NetStep(css, start, lo);
      BodyDepth(css, start, hi, lo + 1);
      assert false;
    }
  }

  /** The scanner finds exactly the brace that closes the body. */
  lemma ScanExact(css: string, start: nat)
    requires start <= |css|
    ensures forall e: nat :: Scan(css, start, 1) == Some(e) <==> Closes(css, start, e)
  {
    assert css[start..start] == "";
    ScanFrom(css, start, start, 1);
    forall e: nat | Closes(css, start, e) ensures Scan(css, start, 1) == Some(e) {
      NetStep(css, start, e);
      var found := Scan(css, start, 1);
      assert found.Some?;
      ClosesUnique(css, start, e, found.value);
    }
  }

  /** Every opening comes right after a brace, in increasing order. */
  predicate Openings(css: string, openings: seq<nat>) {
    && (forall k :: 0 <= k < |openings| ==> 1 <= openings[k] <= |css| && css[openings[k] - 1] == '{')
    && forall j, k :: 0 <= j < k < |openings| ==> openings[j] < openings[k]
  }

  /** The inner loop. */
  method FindClose(css: string, start: nat) returns (end: Option<nat>)
    requires start <= |css|
    ensures end == Scan(css, start, 1)
    ensures end.Some? ==> Closes(css, start, end.value)
    ensures end.None? ==> forall e: nat :: !Closes(css, start, e)
  {
    ScanExact(css, start);
    var depth, i := 1, start;
    while i < |css| && depth > 0
      invariant start <= i <= |css| && depth >= 0
      invariant depth > 0 ==> Scan(css, start, 1) == Scan(css, i, depth)
      invariant depth == 0 ==> i > start && Scan(css, start, 1) == Some(i - 1)
    {
      if css[i] == '{' { depth := depth + 1; }
      else if css[i] == '}' { depth := depth - 1; }
      i := i + 1;
    }
    if depth == 0 { return Some(i - 1); }
    return None;
  }

  datatype Span = Span(start: nat, end: nat)

  ghost function Closed(css: string, openings: seq<nat>): (spans: seq<Span>)
    requires Openings(css, openings)
  {
    if openings == [] then []
    else
      var s := openings[|openings| - 1];
      Closed(css, openings[..|openings| - 1])
      + (match Scan(css, s, 1) case None => [] case Some(e) => [Span(s, e)])
  }

  /** Every opening whose block is closed gives its span, and no other span is there. */
  lemma {:induction false} ClosedIff(css: string, openings: seq<nat>, sp: Span)
    requires Openings(css, openings)
    ensures sp in Closed(css, openings) <==> sp.start in openings && Closes(css, sp.start, sp.end)
  {
    if openings != [] {
      var front, last := openings[..|openings| - 1], openings[|openings| - 1];
      assert openings == front + [last];
      ClosedIff(css, front, sp);
      ScanExact(css, last);
      if sp.start == last { assert Scan(css, last, 1) == Some(sp.end) <==> Closes(css, last, sp.end); }
    }
  }

  /** The blocks are the bodies of the closed spans, in order. */
  ghost predicate Bodies(css: string, spans: seq<Span>, blocks: seq<string>) {
    && |blocks| == |spans|
    && forall k :: 0 <= k < |spans| ==>
         Closes(css, spans[k].start, spans[k].end) && blocks[k] == css[spans[k].start..spans[k].end]
  }

  /** The bodies of the matches whose block is closed, in order; an unclosed match yields none. */
  method ExtractBlocks(css: string, openings: seq<nat>) returns (blocks: seq<string>)
    requires Openings(css, openings)
    ensures Bodies(css, Closed(css, openings), blocks)
  {
    blocks := [];
    for k := 0 to |openings|
      invariant Bodies(css, Closed(css, openings[..k]), blocks)
    {
      assert openings[..k + 1][..k] == openings[..k];
      var end := FindClose(css, openings[k]);
      if end.Some? { blocks := blocks + [css[openings[k]..end.value]]; }
    }
    assert openings[..|openings|] == openings;
  }

  // ---- the spans form a laminar family ----

  lemma {:induction false} CloseBelow(css: string, start: nat, j: nat) returns (end: nat)
    requires start <= j <= |css| && Net(css[start..j]) < 0
    ensures end < j && Closes(css, start, end)
    decreases j
  {
    assert css[start..start] == "";
    var i := j - 1;
    NetStep(css, start, i);
    if Net(css[start..i]) < 0 {
      end := CloseBelow(css, start, i);
    } else if k :| start <= k <= i && Net(css[start..k]) < 0 {
      end := CloseBelow(css, start, k);
    } else {
      end := i;
      forall k | 0 <= k <= |css[start..i]| ensures Net(css[start..i][..k]) >= 0 {
        assert css[start..i][..k] == css[start..start + k];
      }
    }
  }

  /** An opening inside a body is closed inside that body. */
  lemma NestedCloses(css: string, s1: nat, e1: nat, s2: nat) returns (e2: nat)
    requires Closes(css, s1, e1) && s1 < s2 <= e1 && css[s2 - 1] == '{'
    ensures e2 < e1 && Closes(css, s2, e2)
  {
    BodyDepth(css, s1, e1, s2 - 1);
    NetStep(css, s1, s2 - 1);
    NetSplit(css, s1, s2, e1);
    e2 := CloseBelow(css, s2, e1);
  }

  /** Two bodies are disjoint, or the one that opens later lies strictly inside the other. */
  lemma Laminar(css: string, s1: nat, e1: nat, s2: nat, e2: nat)
    requires Closes(css, s1, e1) && Closes(css, s2, e2)
    requires s1 < s2 && css[s2 - 1] == '{'
    ensures e1 < s2 - 1 || (s1 < s2 && e2 < e1)
  {
    if s2 <= e1 {
      var e := NestedCloses(css, s1, e1, s2);
      ClosesUnique(css, s2, e, e2);
    }
  }

  ghost predicate IsBlock(css: string, sp: Span) {
    1 <= sp.start && Closes(css, sp.start, sp.end) && css[sp.start - 1] == '{'
  }

  /** Blocks with increasing starts, all below `bound`. */
  ghost predicate Ordered(css: string, spans: seq<Span>, bound: nat) {
    && (forall k :: 0 <= k < |spans| ==> IsBlock(css, spans[k]) && spans[k].start < bound)
    && forall j, k :: 0 <= j < k < |spans| ==> spans[j].start < spans[k].start
  }

  lemma {:induction false} ClosedOrdered(css: string, openings: seq<nat>, bound: nat)
    requires Openings(css, openings) && forall k :: 0 <= k < |openings| ==> openings[k] < bound
    ensures Ordered(css, Closed(css, openings), bound)
  {
    if openings != [] {
      var last := |openings| - 1;
      ClosedOrdered(css, openings[..last], openings[last]);
      ScanExact(css, openings[last]);
    }
  }

  lemma ExtractionIsLaminar(css: string, openings: seq<nat>, j: nat, k: nat)
    requires Openings(css, openings)
    requires j < k < |Closed(css, openings)|
    ensures var a, b := Closed(css, openings)[j], Closed(css, openings)[k];
            a.end < b.start - 1 || (a.start < b.start && b.end < a.end)
  {
    ClosedOrdered(css, openings, |css| + 1);
    var a, b := Closed(css, openings)[j], Closed(css, openings)[k];
    assert IsBlock(css, a) && IsBlock(css, b);
    Laminar(css, a.start, a.end, b.start, b.end);
  }

  // ---- trees of nested groups ----

  /** Stylesheet text as a tree: plain text, or a braced group, followed by the rest. */
  datatype Forest = Nil | Plain(text: string, rest: Forest) | Group(children: Forest, rest: Forest)

  ghost predicate NoBraces(s: string) { forall i :: 0 <= i < |s| ==> Delta(s[i]) == 0 }

  ghost predicate WellFormed(f: Forest) {
    match f
    case Nil => true
    case Plain(text, rest) => NoBraces(text) && WellFormed(rest)
    case Group(children, rest) => WellFormed(children) && WellFormed(rest)
  }

  function Print(f: Forest): (s: string) {
    match f
    case Nil => ""
    case Plain(text, rest) => text + Print(rest)
    case Group(children, rest) => ("{" + Print(children) + "}") + Print(rest)
  }

  lemma {:induction false} NoBracesBalanced(s: string)
    requires NoBraces(s)
    ensures Balanced(s)
  {
    if s != "" {
      var front := s[..|s| - 1];
      NoBracesBalanced(front);
      forall k | 0 <= k <= |s| ensures Net(s[..k]) >= 0 {
        if k < |s| { assert s[..k] == front[..k]; } else { assert s[..k] == s; }
      }
    }
  }

  lemma BalancedConcat(a: string, b: string)
    requires Balanced(a) && Balanced(b)
    ensures Balanced(a + b)
  {
    var s := a + b;
    NetConcat(a, b);
    forall k | 0 <= k <= |s| ensures Net(s[..k]) >= 0 {
      if k <= |a| {
        assert s[..k] == a[..k];
      } else {
        assert s[..k] == a + b[..k - |a|];
        NetConcat(a, b[..k - |a|]);
      }
    }
  }

  lemma BalancedBraced(s: string)
    requires Balanced(s)
    ensures Balanced("{" + s + "}")
  {
    var t := "{" + s + "}";
    assert Net("{") == 1 by { assert "{"[..0] == ""; }
    assert Net("}") == -1 by { assert "}"[..0] == ""; }
    NetConcat("{", s);
    NetConcat("{" + s, "}");
    forall k | 0 <= k <= |t| ensures Net(t[..k]) >= 0 {
      if k == 0 {
      } else if k <= |s| + 1 {
        assert t[..k] == "{" + s[..k - 1];
        NetConcat("{", s[..k - 1]);
      } else {
        assert t[..k] == t;
      }
    }
  }

  lemma {:induction false} PrintBalanced(f: Forest)
    requires WellFormed(f)
    ensures Balanced(Print(f))
  {
    match f
    case Nil =>
    case Plain(text, rest) =>
      NoBracesBalanced(text);
      PrintBalanced(rest);
      BalancedConcat(text, Print(rest));
    case Group(children, rest) =>
      PrintBalanced(children);
      PrintBalanced(rest);
      BalancedBraced(Print(children));
      BalancedConcat("{" + Print(children) + "}", Print(rest));
  }

  /** A group of a printed tree: the text before its opening brace, its children, the text after it. */
  datatype Placed = Placed(before: string, children: Forest, after: string)

  /** All groups, at any depth, of a tree printed between `pre` and `post`. */
  ghost function Groups(f: Forest, pre: string, post: string): (r: seq<Placed>)
    decreases f
  {
    match f
    case Nil => []
    case Plain(text, rest) => Groups(rest, pre + text, post)
    case Group(children, rest) =>
      [Placed(pre, children, Print(rest) + post)]
      + Groups(children, pre + "{", "}" + Print(rest) + post)
      + Groups(rest, pre + ("{" + Print(children) + "}"), post)
  }

  ghost function Whole(g: Placed): (css: string) { g.before + ("{" + Print(g.children) + "}") + g.after }

  /** The group stands in `css`, and scanning from its brace returns exactly its printed children. */
  ghost predicate Found(css: string, g: Placed) {
    && Whole(g) == css
    && Scan(css, |g.before| + 1, 1) == Some(|g.before| + 1 + |Print(g.children)|)
  }

  lemma BracedFound(pre: string, body: string, post: string)
    requires Balanced(body)
    ensures Scan(pre + ("{" + body + "}") + post, |pre| + 1, 1) == Some(|pre| + 1 + |body|)
  {
    var css := pre + ("{" + body + "}") + post;
    assert css[|pre| + 1..|pre| + 1 + |body|] == body;
    assert Closes(css, |pre| + 1, |pre| + 1 + |body|);
    ScanExact(css, |pre| + 1);
  }

  /** For every tree, whatever surrounds it: scanning from the opening brace of any of its groups
      returns exactly the printed children of that group. */
  lemma {:induction false} GroupsFound(f: Forest, pre: string, post: string)
    requires WellFormed(f)
    ensures forall g :: g in Groups(f, pre, post) ==> Found(pre + Print(f) + post, g)
    decreases f
  {
    var css := pre + Print(f) + post;
    match f
    case Nil =>
    case Plain(text, rest) =>
      assert css == (pre + text) + Print(rest) + post;
      GroupsFound(rest, pre + text, post);
    case Group(children, rest) =>
      var body, tail := Print(children), Print(rest);
      PrintBalanced(children);
      assert css == pre + ("{" + body + "}") + (tail + post);
      BracedFound(pre, body, tail + post);
      assert css == (pre + "{") + body + ("}" + tail + post);
      GroupsFound(children, pre + "{", "}" + tail + post);
      assert css == (pre + ("{" + body + "}")) + tail + post;
      GroupsFound(rest, pre + ("{" + body + "}"), post);
  }

  /** The first group of a balanced text that has one. */
  lemma FirstGroup(s: string) returns (p: nat, e: nat)
    requires Balanced(s) && !NoBraces(s)
    ensures p < e < |s| && s[p] == '{' && s[e] == '}'
    ensures NoBraces(s[..p]) && Balanced(s[p + 1..e]) && Balanced(s[e + 1..])
  {
    p := FirstBrace(s, 0);
    NoBracesBalanced(s[..p]);
    assert s[0..p] == s[..p] && s[0..p + 1] == s[..p + 1] && s[0..|s|] == s;
    NetStep(s, 0, p);
    NetSplit(s, 0, p + 1, |s|);
    e := CloseBelow(s, p + 1, |s|);
    BalancedTail(s, p, e);
  }

  /** Conversely every balanced text, so every body the scanner returns, is a printed tree. */
  lemma {:induction false} BalancedIsPrinted(s: string) returns (f: Forest)
    requires Balanced(s)
    ensures WellFormed(f) && Print(f) == s
    decreases |s|
  {
    if NoBraces(s) {
      f := Plain(s, Nil);
    } else {
      var p, e := FirstGroup(s);
      var inner, rest := s[p + 1..e], s[e + 1..];
      var children := BalancedIsPrinted(inner);
      var tail := BalancedIsPrinted(rest);
      f := Plain(s[..p], Forest.Group(children, tail));
      Regroup(s, p, e);
    }
  }

  lemma Regroup(s: string, p: nat, e: nat)
    requires p < e < |s| && s[p] == '{' && s[e] == '}'
    ensures s == s[..p] + (("{" + s[p + 1..e] + "}") + s[e + 1..])
  {}

  lemma {:induction false} FirstBrace(s: string, from: nat) returns (p: nat)
    requires from <= |s| && NoBraces(s[..from]) && !NoBraces(s)
    ensures p < |s| && Delta(s[p]) != 0 && NoBraces(s[..p])
    decreases |s| - from
  {
    assert s[..|s|] == s;
    if Delta(s[from]) != 0 { p := from; } else { p := FirstBrace(s, from + 1); }
  }

  lemma TailNet(s: string, i: nat, k: nat)
    requires i + k <= |s|
    ensures Net(s[..i + k]) == Net(s[..i]) + Net(s[i..][..k])
  {
    assert s[..i + k] == s[..i] + s[i..][..k];
    NetConcat(s[..i], s[i..][..k]);
  }

  lemma BalancedTail(s: string, p: nat, e: nat)
    requires Balanced(s) && p < |s| && s[p] == '{' && Net(s[..p]) == 0 && Closes(s, p + 1, e)
    ensures Balanced(s[e + 1..])
  {
    assert Net(s[..e + 1]) == 0 by {
      assert s[0..p] == s[..p] && s[0..e + 1] == s[..e + 1];
      NetStep(s, 0, p);
      NetSplit(s, 0, p + 1, e);
      NetStep(s, 0, e);
    }
    var rest := s[e + 1..];
    forall k | 0 <= k <= |rest| ensures Net(rest[..k]) >= 0 { TailNet(s, e + 1, k); }
    TailNet(s, e + 1, |rest|);
    assert rest[..|rest|] == rest && s[..|s|] == s;
  }
}
