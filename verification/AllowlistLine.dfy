/** One line of an allowlist in any layout: indentation, blanks, comments, the row expression, and the
    ways of writing a value. The reader is characterised here by what it makes of written text. */
module AllowlistLine {
  import opened Common
  import opened JsText
  import opened AllowlistEntry
  import opened AllowlistYaml

  /** Indentation, the blanks after a dash, and the blanks before the colon. */
  datatype Layout = Layout(indent: string, gap: string, before: string)

  datatype Written = Written(dash: bool, layout: Layout, key: string, text: string, comment: Option<string>)

  function CommentText(comment: Option<string>): (s: string) {
    match comment case None => "" case Some(c) => " #" + c
  }

  /** Everything up to the colon. */
  function Head(w: Written): (s: string) {
    w.layout.indent + ((if w.dash then "-" + w.layout.gap else "") + (w.key + w.layout.before))
  }

  function Show(w: Written): (s: string) { Head(w) + (": " + (w.text + CommentText(w.comment))) }

  predicate Blank(s: string) { forall c :: c in s ==> c == ' ' || c == '\t' }

  predicate Legible(w: Written) {
    && Blank(w.layout.indent) && Blank(w.layout.gap) && Blank(w.layout.before)
    && IsIdent(w.key) && OneLine(w.text) && (w.comment.Some? ==> OneLine(w.comment.value))
  }

  /** What a text after the colon is read as: a comment in it is cut, and it is trimmed and coerced. */
  function Reading(text: string): (v: Value) { Coerce(Trim(CleanLine(text))) }

  function RowRead(w: Written): (row: Row) { Row(w.layout.indent != "", w.dash, w.key, Reading(w.text)) }

  /** Keys are made of letters, digits and underscores, and start with no digit. */
  lemma IdentIff(s: string)
    ensures IsIdent(s)
            <==> && s != "" && !('0' <= s[0] <= '9')
                 && forall i :: 0 <= i < |s| ==>
                      'a' <= s[i] <= 'z' || 'A' <= s[i] <= 'Z' || s[i] == '_' || '0' <= s[i] <= '9'
  {
  }

  // ---- white space ----

  lemma {:induction false} LeadingAfter(sp: string, rest: string)
    requires AllSpace(sp) && (rest == "" || !IsSpace(rest[0]))
    ensures LeadingSpaces(sp + rest) == |sp| && TrimStart(sp + rest) == rest
  {
    if sp == "" {
      assert sp + rest == rest;
    } else {
      assert (sp + rest)[1..] == sp[1..] + rest;
      LeadingAfter(sp[1..], rest);
    }
  }

  /** Trimming the end stops at text that does not end in white space. */
  lemma {:induction false} TrimEndAfter(a: string, y: string)
    requires a != "" && !IsSpace(a[|a| - 1])
    ensures TrimEnd(a + y) == a + TrimEnd(y)
  {
    var s := a + y;
    if y == "" {
      assert s == a && TrimEnd(y) == "";
    } else if IsSpace(y[|y| - 1]) {
      assert s[..|s| - 1] == a + y[..|y| - 1];
      TrimEndAfter(a, y[..|y| - 1]);
    }
  }

  /** Trimming removes all leading white space, whatever its length. */
  lemma TrimStartTail(sp: string, s: string)
    requires AllSpace(sp)
    ensures TrimStart(sp + s) == TrimStart(s)
  {
    var k := LeadingSpaces(s);
    assert sp + s == (sp + s[..k]) + s[k..];
    LeadingAfter(sp + s[..k], s[k..]);
  }

  lemma TrimEndBlank(s: string)
    requires AllSpace(s)
    ensures TrimEnd(s) == ""
  {
  }

  lemma {:induction false} TrimEndTwice(s: string)
    ensures TrimEnd(TrimEnd(s)) == TrimEnd(s)
  {
  }

  lemma TrimStartEnd(s: string)
    ensures TrimEnd(TrimStart(TrimEnd(s))) == TrimStart(TrimEnd(s))
    ensures LeadingSpaces(TrimStart(s)) == 0
  {
    var e := TrimEnd(s);
    var t := TrimStart(e);
    if t != "" { assert t[|t| - 1] == e[|e| - 1]; }
  }

  lemma TrimTwice(s: string)
    ensures Trim(Trim(s)) == Trim(s)
  {
    TrimStartEnd(s);
    TrimStartEnd(TrimEnd(s));
  }

  // ---- the row expression ----

  lemma {:induction false} IdentTailAfter(key: string, rest: string)
    requires forall i :: 0 <= i < |key| ==> IdentChar(key[i])
    requires rest == "" || !IdentChar(rest[0])
    ensures IdentTail(key + rest) == |key|
  {
    if key == "" {
      assert key + rest == rest;
    } else {
      assert (key + rest)[1..] == key[1..] + rest;
      IdentTailAfter(key[1..], rest);
    }
  }

  lemma NotIdent(sp: string, rest: string)
    requires AllSpace(sp) && rest != "" && rest[0] == ':'
    ensures !IdentChar((sp + rest)[0])
  {
    if sp != "" { assert sp[0] in sp; }
  }

  /** A key, white space, a colon and anything on one line after it. */
  lemma MatchPairOf(key: string, before: string, after: string)
    requires IsIdent(key) && AllSpace(before) && OneLine(TrimStart(after))
    ensures MatchPair(key + (before + (":" + after))) == Some((key, TrimStart(after)))
  {
    var s := key + (before + (":" + after));
    NotIdent(before, ":" + after);
    IdentTailAfter(key, before + (":" + after));
    assert s[0] == key[0];
    assert s[..|key|] == key && s[|key|..] == before + (":" + after);
    LeadingAfter(before, ":" + after);
    assert s[|key| + |before|] == ':' && s[|key| + |before| + 1..] == after;
  }

  /** Every layout with a key, a colon and one line after it is matched, and taken apart as written. */
  lemma MatchLineOf(indent: string, dash: bool, gap: string, key: string, before: string, after: string)
    requires AllSpace(indent) && AllSpace(gap) && IsIdent(key) && AllSpace(before) && OneLine(TrimStart(after))
    ensures var raw := indent + ((if dash then "-" + gap else "") + (key + (before + (":" + after))));
            MatchLine(raw) == Some(Line(indent != "", dash, key, TrimStart(after)))
  {
    var pair := key + (before + (":" + after));
    assert pair[0] == key[0] && IdentStart(key[0]);
    MatchPairOf(key, before, after);
    if dash { MatchDashed(indent, gap, pair); } else { MatchPlain(indent, pair); }
  }

  lemma MatchPlain(indent: string, pair: string)
    requires AllSpace(indent) && pair != "" && IdentStart(pair[0])
    ensures MatchLine(indent + ("" + pair))
            == match MatchPair(pair) case None => None case Some(p) => Some(Line(indent != "", false, p.0, p.1))
  {
    NothingBefore(pair);
    LeadingAfter(indent, pair);
  }

  lemma MatchDashed(indent: string, gap: string, pair: string)
    requires AllSpace(indent) && AllSpace(gap) && pair != "" && IdentStart(pair[0])
    ensures MatchLine(indent + (("-" + gap) + pair))
            == match MatchPair(pair) case None => None case Some(p) => Some(Line(indent != "", true, p.0, p.1))
  {
    var rest := ("-" + gap) + pair;
    LeadingAfter(indent, rest);
    assert rest[0] == '-' && rest[1..] == gap + pair;
    LeadingAfter(gap, pair);
  }

  lemma {:induction false} IdentTailIs(s: string)
    ensures forall i :: 0 <= i < IdentTail(s) ==> IdentChar(s[i])
  {
    if s != "" && IdentChar(s[0]) {
      IdentTailIs(s[1..]);
      assert forall i :: 0 < i < IdentTail(s) ==> s[i] == s[1..][i - 1];
    }
  }

  lemma CutAtColon(s: string, i: nat, j: nat)
    requires i <= j < |s| && s[j] == ':'
    ensures s == s[..i] + (s[i..j] + (":" + s[j + 1..]))
  {
    assert s[i..] == s[i..j] + ([s[j]] + s[j + 1..]);
  }

  lemma IdentForm(s: string)
    requires IdentLength(s) > 0
    ensures IsIdent(s[..IdentLength(s)])
  {
    IdentTailIs(s);
  }

  /** Where the colon of a matched pair stands. */
  lemma PairFacts(s: string) returns (d: nat, e: nat)
    requires MatchPair(s).Some?
    ensures d <= e < |s| && s[e] == ':' && AllSpace(s[d..e]) && IsIdent(s[..d]) && OneLine(TrimStart(s[e + 1..]))
    ensures MatchPair(s).value == (s[..d], TrimStart(s[e + 1..]))
  {
    d := IdentLength(s);
    IdentForm(s);
    e := d + LeadingSpaces(s[d..]);
    assert s[d..e] == s[d..][..e - d];
  }

  /** A key, white space, a colon, and what follows on one line. */
  ghost predicate PairParts(s: string, key: string, before: string, after: string) {
    s == key + (before + (":" + after)) && IsIdent(key) && AllSpace(before) && OneLine(TrimStart(after))
  }

  lemma PairForm(s: string) returns (before: string, after: string)
    requires MatchPair(s).Some?
    ensures PairParts(s, MatchPair(s).value.0, before, after) && MatchPair(s).value.1 == TrimStart(after)
  {
    var d, e := PairFacts(s);
    before, after := s[d..e], s[e + 1..];
    CutAtColon(s, d, e);
  }

  /** Conversely nothing else is matched. */
  lemma LineForm(raw: string) returns (indent: string, gap: string, rest: string, before: string, after: string)
    requires MatchLine(raw).Some?
    ensures var l := MatchLine(raw).value;
            && raw == indent + ((if l.dash then "-" + gap else "") + rest)
            && PairParts(rest, l.key, before, after) && AllSpace(indent) && AllSpace(gap)
            && l.val == TrimStart(after) && (l.indented <==> indent != "")
  {
    indent, rest, gap := CutIndent(raw), TrimStart(raw), "";
    if rest != "" && rest[0] == '-' {
      gap, rest := CutGap(rest);
    } else {
      NothingBefore(rest);
    }
    before, after := PairForm(rest);
  }

  function CutIndent(raw: string): (indent: string)
    ensures AllSpace(indent) && raw == indent + TrimStart(raw) && (indent != "" <==> LeadingSpaces(raw) > 0)
  {
    raw[..LeadingSpaces(raw)]
  }

  lemma NothingBefore(s: string)
    ensures "" + s == s
  {
  }

  lemma CutGap(s: string) returns (gap: string, rest: string)
    requires s != "" && s[0] == '-'
    ensures s == ("-" + gap) + rest && AllSpace(gap) && rest == TrimStart(s[1..])
  {
    gap, rest := s[1..][..LeadingSpaces(s[1..])], TrimStart(s[1..]);
    assert s[1..] == gap + rest;
  }

  // ---- comments ----

  predicate NoHash(s: string) { '#' !in s }

  lemma CommentNeedsHash(l: string, p: nat)
    requires CommentAt(l, p)
    ensures '#' in l[p..]
  {
    if p == 0 && l[0] == '#' { assert l[p..][0] == '#'; } else { assert l[p..][1] == '#'; }
  }

  /** The first match of the comment expression is where it is found. */
  lemma FirstComment(l: string, q: nat)
    requires q <= |l| && (q < |l| ==> CommentAt(l, q)) && forall p :: 0 <= p < q ==> !CommentAt(l, p)
    ensures CommentStart(l, 0) == q
  {
  }

  lemma OneLineConcat(a: string, b: string)
    requires OneLine(a) && OneLine(b)
    ensures OneLine(a + b)
  {}

  lemma OneLineSlice(s: string, i: nat, j: nat)
    requires OneLine(s) && i <= j <= |s|
    ensures OneLine(s[i..j])
  {
    forall c | c in s[i..j] ensures !IsLineTerminator(c) { assert c in s; }
  }

  /** On one line a comment starts at a `#` that begins the text or follows white space. */
  lemma CommentAtIff(l: string, p: nat)
    requires OneLine(l)
    ensures CommentAt(l, p) <==> (p == 0 && l != "" && l[0] == '#') || (p + 1 < |l| && IsSpace(l[p]) && l[p + 1] == '#')
  {
    if l != "" { OneLineSlice(l, 1, |l|); }
    if p + 1 < |l| { OneLineSlice(l, p + 2, |l|); }
  }

  /** Before the text there is no comment, except directly before a text that starts with `#`. */
  lemma NoCommentInHead(head: string, t: string, p: nat)
    requires NoHash(head) && OneLine(head + (" " + t)) && p <= |head|
    ensures CommentAt(head + (" " + t), p) <==> p == |head| && t != "" && t[0] == '#'
  {
    var l := head + (" " + t);
    CommentAtIff(l, p);
    if p < |head| {
      assert l[p] == head[p] && head[p] in head;
      if p + 1 < |head| { assert l[p + 1] == head[p + 1] && head[p + 1] in head; }
    } else {
      assert l[p] == ' ';
      if t != "" { assert l[p + 1] == t[0]; }
    }
  }

  lemma CommentInText(head: string, t: string, p: nat)
    requires OneLine(head + (" " + t)) && OneLine(t) && (p == 0 ==> t == "" || t[0] != '#')
    ensures CommentAt(head + (" " + t), |head| + 1 + p) <==> CommentAt(t, p)
  {
    var l := head + (" " + t);
    CommentAtIff(l, |head| + 1 + p);
    CommentAtIff(t, p);
    assert forall i :: 0 <= i < |t| ==> l[|head| + 1 + i] == t[i];
  }

  /** Cutting the comment of a whole line is cutting the comment of what follows the head. */
  lemma CutAfterHead(head: string, t: string)
    requires NoHash(head) && OneLine(head + (" " + t)) && OneLine(t)
    ensures var l := head + (" " + t);
            if t != "" && t[0] == '#' then l[..CommentStart(l, 0)] == head && CommentStart(t, 0) == 0
            else l[..CommentStart(l, 0)] == head + (" " + t[..CommentStart(t, 0)])
  {
    var l := head + (" " + t);
    forall p | 0 <= p < |head| ensures !CommentAt(l, p) { NoCommentInHead(head, t, p); }
    NoCommentInHead(head, t, |head|);
    if t != "" && t[0] == '#' {
      FirstComment(l, |head|);
      CommentAtIff(t, 0);
      FirstComment(t, 0);
    } else {
      var c := CommentStart(t, 0);
      var q := |head| + 1 + c;
      forall p | 0 <= p < q ensures !CommentAt(l, p) {
        if p > |head| { CommentInText(head, t, p - |head| - 1); }
      }
      CommentInText(head, t, c);
      FirstComment(l, q);
    }
  }

  lemma CommentSameStart(t: string, comment: Option<string>, p: nat)
    requires OneLine(t) && OneLine(t + CommentText(comment)) && p < |t|
    ensures CommentAt(t + CommentText(comment), p) <==> CommentAt(t, p)
  {
    var l := t + CommentText(comment);
    CommentAtIff(l, p);
    CommentAtIff(t, p);
    if p + 1 < |t| { assert l[p + 1] == t[p + 1]; }
  }

  lemma CommentMark(t: string, c: string)
    requires OneLine(t + (" #" + c))
    ensures CommentAt(t + (" #" + c), |t|)
  {
    var l := t + (" #" + c);
    assert l[|t|] == ' ' && l[|t| + 1] == '#';
    CommentAtIff(l, |t|);
  }

  /** A comment after the text does not change what is cut to. */
  lemma CutComment(t: string, comment: Option<string>)
    requires OneLine(t) && (comment.Some? ==> OneLine(comment.value))
    ensures OneLine(t + CommentText(comment))
    ensures CleanLine(t + CommentText(comment)) == CleanLine(t)
  {
    var l := t + CommentText(comment);
    if comment.Some? { OneLineConcat(" #", comment.value); }
    OneLineConcat(t, CommentText(comment));
    var c := CommentStart(t, 0);
    forall p | 0 <= p < c ensures !CommentAt(l, p) { CommentSameStart(t, comment, p); }
    if c < |t| { CommentSameStart(t, comment, c); } else if comment.Some? { CommentMark(t, comment.value); }
    FirstComment(l, c);
    assert l[..c] == t[..c];
  }

  // ---- a written line is read as written ----

  lemma BlankText(s: string)
    requires Blank(s)
    ensures AllSpace(s) && NoHash(s) && OneLine(s)
  {
  }

  lemma IdentText(key: string)
    requires IsIdent(key)
    ensures NoHash(key) && OneLine(key) && !IsSpace(key[0]) && !IsSpace(key[|key| - 1]) && key[0] != '-'
  {
    forall c | c in key ensures IdentChar(c) {
      var i :| 0 <= i < |key| && key[i] == c;
    }
    assert key[0] in key && key[|key| - 1] in key;
  }

  lemma HeadText(w: Written)
    requires Legible(w)
    ensures NoHash(Head(w) + ":") && OneLine(Head(w) + ":")
    ensures Head(w)[0] != '\U{FEFF}' && Head(w)[0] != '#'
  {
    BlankText(w.layout.indent);
    BlankText(w.layout.gap);
    BlankText(w.layout.before);
    IdentText(w.key);
    var mark := if w.dash then "-" + w.layout.gap else "";
    OneLineConcat(w.key, w.layout.before);
    OneLineConcat(mark, w.key + w.layout.before);
    OneLineConcat(w.layout.indent, mark + (w.key + w.layout.before));
    OneLineConcat(Head(w), ":");
    if w.layout.indent != "" { assert w.layout.indent[0] in w.layout.indent; }
  }

  lemma CleanText(head: string, t: string)
    requires NoHash(head) && OneLine(head) && head != "" && !IsSpace(head[|head| - 1]) && OneLine(t)
    ensures CleanLine(head + (" " + t)) == head + TrimEnd(" " + CleanLine(t))
  {
    OneLineConcat(" ", t);
    OneLineConcat(head, " " + t);
    CutAfterHead(head, t);
    var u := t[..CommentStart(t, 0)];
    if t != "" && t[0] == '#' {
      TrimEndAfter(head, "");
      assert head + "" == head && u == "";
      TrimEndBlank(" ");
      assert " " + CleanLine(t) == " ";
    } else {
      TrimEndAfter(head, " " + u);
      SpaceTrimmed(u);
    }
  }

  lemma {:induction false} SpaceTrimmed(u: string)
    ensures TrimEnd(" " + u) == TrimEnd(" " + TrimEnd(u))
  {
    if u != "" && IsSpace(u[|u| - 1]) {
      assert (" " + u)[..|" " + u| - 1] == " " + u[..|u| - 1];
      SpaceTrimmed(u[..|u| - 1]);
    }
  }

  lemma TrimSpaced(u: string)
    ensures TrimStart(TrimEnd(" " + u)) == Trim(u)
  {
    var e := TrimEnd(u);
    SpaceTrimmed(u);
    if e == "" {
      TrimEndBlank(" ");
      assert " " + e == " ";
    } else {
      assert (" " + e)[|" " + e| - 1] == e[|e| - 1];
      TrimStartTail(" ", e);
    }
  }

  /** Whatever the layout, the text and the comment, the line is read as the row it writes. */
  lemma ReadShown(w: Written)
    requires Legible(w)
    ensures OneLine(Show(w)) && Show(w)[0] != '\U{FEFF}'
    ensures CleanLine(Show(w)) != "" && ReadRow(CleanLine(Show(w))) == Some(RowRead(w))
  {
    HeadText(w);
    var head, t := Head(w) + ":", w.text + CommentText(w.comment);
    assert Show(w) == head + (" " + t);
    CutComment(w.text, w.comment);
    OneLineConcat(" ", t);
    OneLineConcat(head, " " + t);
    CleanText(head, t);
    var after := TrimEnd(" " + CleanLine(w.text));
    ReadHead(w, after);
    TrimSpaced(CleanLine(w.text));
    TrimTwice(CleanLine(w.text));
  }

  lemma ReadHead(w: Written, after: string)
    requires Legible(w) && after == TrimEnd(" " + CleanLine(w.text))
    ensures MatchLine((Head(w) + ":") + after)
            == Some(Line(w.layout.indent != "", w.dash, w.key, TrimStart(after)))
  {
    BlankText(w.layout.indent);
    BlankText(w.layout.gap);
    BlankText(w.layout.before);
    TrimSpaced(CleanLine(w.text));
    CleanOneLine(w.text);
    MatchLineOf(w.layout.indent, w.dash, w.layout.gap, w.key, w.layout.before, after);
    Reassociate(w.layout.indent, if w.dash then "-" + w.layout.gap else "", w.key, w.layout.before, ":", after);
  }

  lemma Reassociate(a: string, b: string, c: string, d: string, e: string, f: string)
    ensures ((a + (b + (c + d))) + e) + f == a + (b + (c + (d + (e + f))))
  {
    Associate(a, b + (c + d), e);
    Associate(b, c + d, e);
    Associate(c, d, e);
    Associate(a, b + (c + (d + e)), f);
    Associate(b, c + (d + e), f);
    Associate(c, d + e, f);
    Associate(d, e, f);
  }

  lemma Associate(a: string, b: string, c: string)
    ensures (a + b) + c == a + (b + c)
  {
  }

  lemma CleanOneLine(t: string)
    requires OneLine(t)
    ensures OneLine(CleanLine(t)) && OneLine(Trim(CleanLine(t)))
  {
    var c := CleanLine(t);
    OneLineSlice(t, 0, |c|);
    assert c == t[0..|c|];
    var e := TrimEnd(c);
    OneLineSlice(c, 0, |e|);
    assert e == c[0..|e|];
    OneLineSlice(e, LeadingSpaces(e), |e|);
    assert Trim(c) == e[LeadingSpaces(e)..|e|];
  }

  /** Blank lines and lines with nothing but a comment are dropped. */
  lemma RemarkVanishes(indent: string, comment: Option<string>)
    requires Blank(indent) && (comment.Some? ==> OneLine(comment.value))
    ensures var l := indent + (match comment case None => "" case Some(c) => "#" + c);
            OneLine(l) && CleanLine(l) == "" && (l != "" ==> l[0] != '\U{FEFF}')
  {
    var rest := match comment case None => "" case Some(c) => "#" + c;
    var l := indent + rest;
    BlankText(indent);
    if comment.Some? { OneLineConcat("#", comment.value); }
    OneLineConcat(indent, rest);
    if indent != "" { assert indent[0] in indent; }
    CommentStartBlank(indent, rest);
    var c := CommentStart(l, 0);
    assert l[..c] == indent[..c];
    forall ch | ch in indent[..c] ensures IsSpace(ch) { assert ch in indent; }
    TrimEndBlank(l[..c]);
  }

  lemma CommentStartBlank(indent: string, rest: string)
    requires Blank(indent) && OneLine(indent + rest) && (rest == "" || rest[0] == '#')
    ensures CommentStart(indent + rest, 0) <= |indent|
  {
    var l := indent + rest;
    if rest != "" {
      var p := if indent == "" then 0 else |indent| - 1;
      assert l[|indent|] == '#';
      if indent != "" { assert l[p] == indent[p] && indent[p] in indent; }
      CommentAtIff(l, p);
    }
  }

  // ---- what a text is read as ----

  predicate NoHashAfterSpace(s: string) {
    forall i :: 0 <= i < |s| - 1 ==> !(IsSpace(s[i]) && s[i + 1] == '#')
  }

  predicate IsWord(s: string) { s == "" || s == "~" || s == "null" || s == "true" || s == "false" }

  predicate IsNumeral(s: string) { s != "" && (AllDigits(s) || (s[0] == '-' && |s| > 1 && AllDigits(s[1..]))) }

  predicate IsQuoted(s: string) { Quoted(s, '\'') || Quoted(s, '"') }

  /** Text that stands for itself without quotes. */
  predicate PlainText(s: string) {
    && !IsWord(s) && !IsNumeral(s) && !IsQuoted(s)
    && OneLine(s) && NoHashAfterSpace(s) && s[0] != '#' && !IsSpace(s[0]) && !IsSpace(s[|s| - 1])
  }

  /** Nothing is cut from a line without comment, and nothing trimmed between solid ends. */
  lemma CleanSolid(t: string)
    requires OneLine(t) && NoHashAfterSpace(t) && t != "" && t[0] != '#'
    requires !IsSpace(t[0]) && !IsSpace(t[|t| - 1])
    ensures Reading(t) == Coerce(t)
  {
    forall p | 0 <= p < |t| ensures !CommentAt(t, p) { CommentAtIff(t, p); }
    FirstComment(t, |t|);
    assert t[..|t|] == t;
    TrimFixed(t);
  }

  lemma CleanHasNoHash(l: string)
    requires OneLine(l)
    ensures OneLine(CleanLine(l)) && NoHashAfterSpace(CleanLine(l)) && (CleanLine(l) != "" ==> CleanLine(l)[0] != '#')
  {
    var r := CleanLine(l);
    CleanOneLine(l);
    assert r <= l;
    forall i | 0 <= i < |r| - 1 ensures !(IsSpace(r[i]) && r[i + 1] == '#') {
      assert r[i] == l[i] && r[i + 1] == l[i + 1];
      CommentAtIff(l, i);
    }
    if r != "" { CommentAtIff(l, 0); }
  }

  lemma SliceNoHash(s: string, i: nat, j: nat)
    requires i <= j <= |s| && NoHashAfterSpace(s)
    ensures NoHashAfterSpace(s[i..j])
  {
    var r := s[i..j];
    forall k | 0 <= k < |r| - 1 ensures !(IsSpace(r[k]) && r[k + 1] == '#') {
      assert r[k] == s[i + k] && r[k + 1] == s[i + k + 1];
    }
  }

  lemma TrimIsSlice(s: string) returns (i: nat, j: nat)
    ensures i <= j <= |s| && Trim(s) == s[i..j]
    ensures Trim(s) != "" ==> !IsSpace(Trim(s)[0]) && !IsSpace(Trim(s)[|Trim(s)| - 1])
  {
    var e := TrimEnd(s);
    i, j := LeadingSpaces(e), |e|;
    assert e == s[..j];
    var t := Trim(s);
    if t != "" { assert t[|t| - 1] == e[|e| - 1]; }
  }

  /** A string that is read has no line break and no `#` after white space. */
  lemma ReadingClean(t: string)
    requires OneLine(t)
    ensures Reading(t).Str? ==> OneLine(Reading(t).s) && NoHashAfterSpace(Reading(t).s)
  {
    var c := CleanLine(t);
    CleanHasNoHash(t);
    CleanOneLine(t);
    var i, j := TrimIsSlice(c);
    SliceNoHash(c, i, j);
    CoerceClean(Trim(c));
  }

  lemma CoerceClean(u: string)
    requires OneLine(u) && NoHashAfterSpace(u)
    ensures Coerce(u).Str? ==> OneLine(Coerce(u).s) && NoHashAfterSpace(Coerce(u).s)
  {
    if |u| >= 2 {
      SliceNoHash(u, 1, |u| - 1);
      OneLineSlice(u, 1, |u| - 1);
    }
  }

  /** An unquoted text comes back as itself exactly if it is plain. */
  lemma PlainIff(s: string)
    requires OneLine(s)
    ensures Reading(s) == Str(s) <==> PlainText(s)
  {
    if PlainText(s) {
      CleanSolid(s);
    } else if Reading(s) == Str(s) {
      ReadingClean(s);
      var c := CleanLine(s);
      var i, j := TrimIsSlice(c);
      UnquotedIsWhole(Trim(c), s);
      assert |Trim(c)| == |s| && Trim(c) == s;
      CleanHasNoHash(s);
      assert false;
    }
  }

  /** Only the last branch of the coercion keeps all of the text. */
  lemma UnquotedIsWhole(u: string, s: string)
    requires |u| <= |s| && Coerce(u) == Str(s)
    ensures u == s && !IsWord(u) && !IsNumeral(u) && !IsQuoted(u)
  {
  }

  lemma SolidQuotes(s: string, q: char)
    requires OneLine(s) && NoHashAfterSpace(s) && (q == '\'' || q == '"')
    ensures var t := [q] + s + [q];
            OneLine(t) && NoHashAfterSpace(t) && t[0] == q && t[|t| - 1] == q && t[1..|t| - 1] == s
  {
    var t := [q] + s + [q];
    forall i | 0 <= i < |t| - 1 ensures !(IsSpace(t[i]) && t[i + 1] == '#') {
      if 1 <= i < |t| - 2 { assert t[i] == s[i - 1] && t[i + 1] == s[i]; }
    }
    forall c | c in t ensures !IsLineTerminator(c) { assert c == q || c in s; }
  }

  /** A quoted text comes back as itself exactly if it has no `#` after white space. */
  lemma QuotedIff(s: string, q: char)
    requires OneLine(s) && (q == '\'' || q == '"')
    ensures Reading([q] + s + [q]) == Str(s) <==> NoHashAfterSpace(s)
  {
    var t := [q] + s + [q];
    if NoHashAfterSpace(s) {
      SolidQuotes(s, q);
      CleanSolid(t);
      QuotedCoerced(t, q);
    } else {
      forall c | c in t ensures !IsLineTerminator(c) { assert c == q || c in s; }
      ReadingClean(t);
    }
  }

  lemma QuotedCoerced(t: string, q: char)
    requires Quoted(t, q) && (q == '\'' || q == '"')
    ensures Coerce(t) == Str(t[1..|t| - 1])
  {
    assert t[0] == q && q in t && !IsDigit(q);
  }

  // ---- numerals and words ----

  lemma NumeralRead(s: string)
    requires s != "" && forall i :: 0 <= i < |s| ==> IsDigit(s[i]) || s[i] == '-'
    ensures Reading(s) == Coerce(s) && OneLine(s)
  {
    forall c | c in s ensures !IsLineTerminator(c) && !IsSpace(c) && c != '#' {}
    assert s[0] in s && s[|s| - 1] in s;
    CleanSolid(s);
  }

  predicate AllZero(s: string) { forall c :: c in s ==> c == '0' }

  lemma {:induction false} LeadingZeros(zeros: string, s: string)
    requires AllZero(zeros) && AllDigits(s)
    ensures AllDigits(zeros + s) && ParseNat(zeros + s) == ParseNat(s)
  {
    if s == "" {
      assert zeros + s == zeros;
      ZerosAreZero(zeros);
    } else {
      assert (zeros + s)[..|zeros + s| - 1] == zeros + s[..|s| - 1];
      LeadingZeros(zeros, s[..|s| - 1]);
    }
  }

  lemma {:induction false} ZerosAreZero(zeros: string)
    requires AllZero(zeros)
    ensures AllDigits(zeros) && ParseNat(zeros) == 0
  {
    if zeros != "" {
      var front := zeros[..|zeros| - 1];
      assert AllZero(front) by { assert forall c :: c in front ==> c in zeros; }
      ZerosAreZero(front);
      assert zeros[|zeros| - 1] in zeros;
    }
  }

  /** Numerals are read as their value, with leading zeros or without. */
  lemma DigitsRead(zeros: string, n: nat)
    requires AllZero(zeros)
    ensures Reading(zeros + DecimalNat(n)) == Int(n) && OneLine(zeros + DecimalNat(n))
  {
    LeadingZeros(zeros, DecimalNat(n));
    ParseNatDecimal(n);
    PlusRead(zeros + DecimalNat(n));
  }

  lemma PlusRead(s: string)
    requires s != "" && AllDigits(s)
    ensures Reading(s) == Int(ParseNat(s)) && OneLine(s)
  {
    NumeralRead(s);
    DigitsCoerced(s);
  }

  lemma DigitsCoerced(s: string)
    requires s != "" && AllDigits(s)
    ensures Coerce(s) == Int(ParseNat(s))
  {
    assert s[0] in s;
  }

  lemma NegativeRead(zeros: string, n: nat)
    requires AllZero(zeros)
    ensures Reading("-" + (zeros + DecimalNat(n))) == Int(0 - n) && OneLine("-" + (zeros + DecimalNat(n)))
  {
    LeadingZeros(zeros, DecimalNat(n));
    ParseNatDecimal(n);
    MinusRead(zeros + DecimalNat(n));
  }

  lemma MinusRead(digits: string)
    requires digits != "" && AllDigits(digits)
    ensures Reading("-" + digits) == Int(0 - ParseNat(digits)) && OneLine("-" + digits)
  {
    MinusText(digits);
    NumeralRead("-" + digits);
    MinusCoerced("-" + digits);
  }

  lemma MinusText(digits: string)
    requires AllDigits(digits)
    ensures var s := "-" + digits;
            s[0] == '-' && s[1..] == digits && forall i :: 0 <= i < |s| ==> IsDigit(s[i]) || s[i] == '-'
  {
    var s := "-" + digits;
    forall i | 0 <= i < |s| ensures IsDigit(s[i]) || s[i] == '-' {
      if i > 0 { assert s[i] == digits[i - 1]; }
    }
  }

  lemma MinusCoerced(s: string)
    requires |s| > 1 && s[0] == '-' && AllDigits(s[1..])
    ensures Coerce(s) == Int(0 - ParseNat(s[1..]))
  {
    assert s[0] in s;
  }

  /** What holds of every numeral of an integer. */
  lemma DecimalBy(good: (string, int) -> bool, n: int)
    requires forall m: nat :: good(DecimalNat(m), m) && good("-" + DecimalNat(m), 0 - m)
    ensures good(Decimal(n), n)
  {
    if n < 0 { assert good("-" + DecimalNat(-n), 0 - -n); }
  }

  lemma DecimalRead(n: int)
    ensures Reading(Decimal(n)) == Int(n) && OneLine(Decimal(n))
  {
    var good := (s: string, m: int) => Reading(s) == Int(m) && OneLine(s);
    forall m: nat ensures good(DecimalNat(m), m) && good("-" + DecimalNat(m), 0 - m) {
      DigitsPlain(m);
      NegativePlain(m);
    }
    DecimalBy(good, n);
  }

  lemma DigitsPlain(n: nat)
    ensures Reading(DecimalNat(n)) == Int(n) && OneLine(DecimalNat(n))
  {
    NothingBefore(DecimalNat(n));
    DigitsRead("", n);
  }

  lemma NegativePlain(n: nat)
    ensures Reading("-" + DecimalNat(n)) == Int(0 - n) && OneLine("-" + DecimalNat(n))
  {
    NothingBefore(DecimalNat(n));
    NegativeRead("", n);
  }

  lemma LettersRead(s: string)
    requires s != "" && forall i :: 0 <= i < |s| ==> IsLetter(s[i]) || s[i] == '~'
    ensures Reading(s) == Coerce(s) && OneLine(s)
  {
    forall c | c in s ensures !IsLineTerminator(c) && !IsSpace(c) && c != '#' {}
    assert s[0] in s && s[|s| - 1] in s;
    CleanSolid(s);
  }

  lemma EmptyRead()
    ensures Reading("") == Null
  {
    assert CommentStart("", 0) == 0 && TrimEnd("") == "";
  }

  /** The words for null and the booleans. */
  lemma NullRead()
    ensures Reading("null") == Null && OneLine("null")
  {
    LettersRead("null");
  }

  lemma TildeRead()
    ensures Reading("~") == Null && OneLine("~")
  {
    LettersRead("~");
  }

  lemma BoolRead(b: bool)
    ensures Reading(if b then "true" else "false") == Bool(b) && OneLine(if b then "true" else "false")
  {
    if b { LettersRead("true"); } else { LettersRead("false"); }
  }
}
