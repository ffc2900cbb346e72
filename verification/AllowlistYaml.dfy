/** The loader's line-oriented YAML subset: lines, comments, `key: value` rows, list items and
    scalar coercion. */
module AllowlistYaml {
  import opened Common
  import opened JsText
  import opened AllowlistEntry

  datatype ParseError = CannotParse(line: string) | OutsideList(key: string)

  datatype Document = Document(topLevel: Entry, entries: seq<Entry>)

  // ---- lines ----

  function StripBom(s: string): (r: string) {
    if s != "" && s[0] == '\U{FEFF}' then s[1..] else s
  }

  function NewlineIndex(s: string): (i: nat)
    ensures i <= |s| && '\n' !in s[..i]
    ensures i < |s| ==> s[i] == '\n'
  {
    if s == "" || s[0] == '\n' then 0 else
      assert forall i :: 0 <= i <= |s[1..]| ==> s[..i + 1] == [s[0]] + s[1..][..i];
      1 + NewlineIndex(s[1..])
  }

  function ChopReturn(l: string): (r: string) {
    if l != "" && l[|l| - 1] == '\r' then l[..|l| - 1] else l
  }

  /** `split(/\r?\n/)`. */
  function SplitLines(s: string): (lines: seq<string>) {
    var i := NewlineIndex(s);
    if i == |s| then [s] else [ChopReturn(s[..i])] + SplitLines(s[i + 1..])
  }

  /** The expression `(^|\s)#.*$` matches at position `p`. */
  predicate CommentAt(l: string, p: nat) {
    || (p == 0 && l != "" && l[0] == '#' && OneLine(l[1..]))
    || (p + 1 < |l| && IsSpace(l[p]) && l[p + 1] == '#' && OneLine(l[p + 2..]))
  }

  /** Leftmost match of the comment expression at or after `p`. */
  function CommentStart(l: string, p: nat): (q: nat)
    requires p <= |l|
    ensures p <= q <= |l|
    ensures forall i :: p <= i < q ==> !CommentAt(l, i)
    ensures q < |l| ==> CommentAt(l, q)
    decreases |l| - p
  {
    if p == |l| || CommentAt(l, p) then p else CommentStart(l, p + 1)
  }

  function CleanLine(l: string): (r: string) { TrimEnd(l[..CommentStart(l, 0)]) }

  function CleanLines(lines: seq<string>): (r: seq<string>) {
    if lines == [] then []
    else
      var l := CleanLine(lines[0]);
      (if l == "" then [] else [l]) + CleanLines(lines[1..])
  }

  // ---- rows ----

  predicate IdentStart(c: char) { IsLetter(c) || c == '_' }

  predicate IdentChar(c: char) { IdentStart(c) || IsDigit(c) }

  predicate IsIdent(s: string) {
    s != "" && IdentStart(s[0]) && forall i :: 0 <= i < |s| ==> IdentChar(s[i])
  }

  function IdentTail(s: string): (n: nat)
    ensures n <= |s|
  {
    if s == "" || !IdentChar(s[0]) then 0 else 1 + IdentTail(s[1..])
  }

  function IdentLength(s: string): (n: nat)
    ensures n <= |s|
  {
    if s == "" || !IdentStart(s[0]) then 0 else IdentTail(s)
  }

  datatype Line = Line(indented: bool, dash: bool, key: string, val: string)

  /** `([A-Za-z_][A-Za-z0-9_]*)\s*:\s*(.*)$` at the start of `s`. */
  function MatchPair(s: string): (m: Option<(string, string)>) {
    var d := IdentLength(s);
    var e := d + LeadingSpaces(s[d..]);
    if d == 0 || e == |s| || s[e] != ':' then None
    else
      var val := TrimStart(s[e + 1..]);
      if OneLine(val) then Some((s[..d], val)) else None
  }

  /** `^(\s*)(-?)\s*` followed by the pair; greedy matching never has to back up. */
  function MatchLine(raw: string): (m: Option<Line>) {
    var rest := TrimStart(raw);
    var dash := rest != "" && rest[0] == '-';
    match MatchPair(if dash then TrimStart(rest[1..]) else rest)
    case None => None
    case Some(pair) => Some(Line(LeadingSpaces(raw) > 0, dash, pair.0, pair.1))
  }

  predicate Quoted(v: string, quote: char) {
    |v| >= 2 && v[0] == quote && v[|v| - 1] == quote && OneLine(v[1..|v| - 1])
  }

  function Coerce(v: string): (r: Value) {
    if v == "" || v == "~" || v == "null" then Null
    else if v == "true" then Bool(true)
    else if v == "false" then Bool(false)
    else if AllDigits(v) then Int(ParseNat(v))
    else if v[0] == '-' && |v| > 1 && AllDigits(v[1..]) then Int(0 - ParseNat(v[1..]))
    else if Quoted(v, '\'') || Quoted(v, '"') then Str(v[1..|v| - 1])
    else Str(v)
  }

  datatype Row = Row(indented: bool, dash: bool, key: string, value: Value)

  /** One cleaned line as a row, or None when it has no such form. */
  function ReadRow(raw: string): (row: Option<Row>) {
    match MatchLine(raw)
    case None => None
    case Some(l) => Some(Row(l.indented, l.dash, l.key, Coerce(Trim(l.val))))
  }

  // ---- assembling the document ----

  datatype State = State(topLevel: Entry, entries: seq<Entry>, current: Option<Entry>)

  const START := State(map[], [], None)

  /** A dash flushes the current item and opens a new one; before the first dash only unindented
      keys are allowed, and those are document-wide settings. */
  function Put(st: State, row: Row): (r: Result<State, ParseError>) {
    if row.dash then
      Ok(State(st.topLevel, if st.current.Some? then st.entries + [st.current.value] else st.entries,
               Some(map[row.key := row.value])))
    else if st.current.Some? then
      Ok(st.(current := Some(st.current.value[row.key := row.value])))
    else if row.indented then Err(OutsideList(row.key))
    else Ok(st.(topLevel := st.topLevel[row.key := row.value]))
  }

  function Finish(st: State): (d: Document) {
    Document(st.topLevel, if st.current.Some? then st.entries + [st.current.value] else st.entries)
  }

  function ParseFrom(read: string -> Option<Row>, lines: seq<string>, st: State): (r: Result<Document, ParseError>) {
    if lines == [] then Ok(Finish(st))
    else match read(lines[0])
      case None => Err(CannotParse(lines[0]))
      case Some(row) =>
        match Put(st, row)
        case Err(e) => Err(e)
        case Ok(st') => ParseFrom(read, lines[1..], st')
  }

  function Parse(src: string): (r: Result<Document, ParseError>) {
    var lines := CleanLines(SplitLines(StripBom(src)));
    if |lines| == 1 && Trim(lines[0]) == "[]" then Ok(Document(map[], []))
    else ParseFrom(ReadRow, lines, START)
  }

  // ---- which files are refused ----

  /** The line is a row, and not an indented key while no item was opened, by it or by a line before. */
  predicate Fine(read: string -> Option<Row>, lines: seq<string>, open: bool, i: nat)
    requires i < |lines|
  {
    && read(lines[i]).Some?
    && (read(lines[i]).value.indented ==> open || exists j :: 0 <= j <= i && Opens(read, lines[j]))
  }

  predicate Opens(read: string -> Option<Row>, l: string) { read(l).Some? && read(l).value.dash }

  function ErrorAt(read: string -> Option<Row>, l: string): (e: ParseError) {
    if read(l).None? then CannotParse(l) else OutsideList(read(l).value.key)
  }

  lemma FineTail(read: string -> Option<Row>, lines: seq<string>, open: bool, i: nat)
    requires 0 < i < |lines|
    ensures Fine(read, lines, open, i) <==> Fine(read, lines[1..], open || Opens(read, lines[0]), i - 1)
  {
    assert lines[1..][i - 1] == lines[i];
    if j :| 0 <= j <= i && Opens(read, lines[j]) {
      if j > 0 { assert Opens(read, lines[1..][j - 1]); }
    }
    if j :| 0 <= j <= i - 1 && Opens(read, lines[1..][j]) {
      assert Opens(read, lines[j + 1]);
    }
  }

  lemma {:induction false} ParseOkFrom(read: string -> Option<Row>, lines: seq<string>, st: State)
    ensures var r, open := ParseFrom(read, lines, st), st.current.Some?;
            && (r.Ok? <==> forall i :: 0 <= i < |lines| ==> Fine(read, lines, open, i))
            && (r.Err? ==> exists i :: 0 <= i < |lines| && !Fine(read, lines, open, i)
                             && r.error == ErrorAt(read, lines[i])
                             && forall j :: 0 <= j < i ==> Fine(read, lines, open, j))
    decreases |lines|
  {
    if lines != [] {
      var open := st.current.Some?;
      if Fine(read, lines, open, 0) {
        var st' := Put(st, read(lines[0]).value).value;
        ParseOkFrom(read, lines[1..], st');
        var open' := st'.current.Some?;
        assert open' == (open || Opens(read, lines[0]));
        forall i | 0 < i < |lines| ensures Fine(read, lines, open, i) <==> Fine(read, lines[1..], open', i - 1) {
          FineTail(read, lines, open, i);
        }
        FineShift(read, lines, open, open');
      }
    }
  }

  lemma FineShift(read: string -> Option<Row>, lines: seq<string>, open: bool, open': bool)
    requires lines != [] && Fine(read, lines, open, 0)
    requires forall i :: 0 < i < |lines| ==> (Fine(read, lines, open, i) <==> Fine(read, lines[1..], open', i - 1))
    ensures (forall i :: 0 <= i < |lines| ==> Fine(read, lines, open, i))
            <==> forall i :: 0 <= i < |lines[1..]| ==> Fine(read, lines[1..], open', i)
    ensures forall i :: 0 <= i < |lines[1..]| ==> (Fine(read, lines[1..], open', i) <==> Fine(read, lines, open, i + 1))
  {
    forall i | 0 <= i < |lines[1..]| ensures Fine(read, lines[1..], open', i) <==> Fine(read, lines, open, i + 1) {
      assert i == (i + 1) - 1;
    }
    forall i | 0 <= i < |lines| && forall k :: 0 <= k < |lines[1..]| ==> Fine(read, lines[1..], open', k)
      ensures Fine(read, lines, open, i)
    {
      if i > 0 { assert Fine(read, lines[1..], open', i - 1); }
    }
  }

  /** The loader accepts a list of lines exactly if all of them are fine; otherwise it reports the first
      one that is not: that it cannot be parsed, or that its key stands outside any item. */
  lemma ParseOkIff(read: string -> Option<Row>, lines: seq<string>)
    ensures var r := ParseFrom(read, lines, START);
            && (r.Ok? <==> forall i :: 0 <= i < |lines| ==> Fine(read, lines, false, i))
            && (r.Err? ==> exists i :: 0 <= i < |lines| && !Fine(read, lines, false, i)
                             && r.error == ErrorAt(read, lines[i])
                             && forall j :: 0 <= j < i ==> Fine(read, lines, false, j))
  {
    ParseOkFrom(read, lines, START);
  }

  // ---- the loops ----

  /** The loop over the cleaned lines, for any way of reading a line. */
  method Assemble(read: string -> Option<Row>, lines: seq<string>) returns (r: Result<Document, ParseError>)
    ensures r == ParseFrom(read, lines, START)
  {
    var entries: seq<Entry>, topLevel: Entry, current: Option<Entry> := [], map[], None;
    for i := 0 to |lines|
      invariant ParseFrom(read, lines, START) == ParseFrom(read, lines[i..], State(topLevel, entries, current))
    {
      assert lines[i..][1..] == lines[i + 1..];
      var m := read(lines[i]);
      if m.None? { return Err(CannotParse(lines[i])); }
      var row := m.value;
      if row.dash {
        if current.Some? { entries := entries + [current.value]; }
        current := Some(map[]);
      }
      if current.None? {
        if row.indented { return Err(OutsideList(row.key)); }
        topLevel := topLevel[row.key := row.value];
        continue;
      }
      current := Some(current.value[row.key := row.value]);
    }
    if current.Some? { entries := entries + [current.value]; }
    return Ok(Document(topLevel, entries));
  }

  /** The loader. */
  method ParseAllowlistYaml(src: string) returns (r: Result<Document, ParseError>)
    ensures r == Parse(src)
  {
    var lines := CleanLines(SplitLines(StripBom(src)));
    if |lines| == 1 && Trim(lines[0]) == "[]" { return Ok(Document(map[], [])); }
    r := Assemble(ReadRow, lines);
  }
}
