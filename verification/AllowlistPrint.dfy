/** Allowlist files and documents: what a file in any layout parses to, a printer for documents in three
    ways of writing strings, and the proof that parsing inverts it exactly on what it can print. */
module AllowlistPrint {
  import opened Common
  import opened JsText
  import opened AllowlistEntry
  import opened AllowlistYaml
  import opened AllowlistLine

  // ---- files ----

  /** A row, or a line that is blank or holds a comment only. */
  datatype TextLine = Data(row: Written) | Remark(indent: string, comment: Option<string>)

  /** Lines with their ends (true for carriage return and line feed), and what follows the last end. */
  datatype File = File(bom: bool, lines: seq<(TextLine, bool)>, last: TextLine)

  function LineText(l: TextLine): (s: string) {
    match l
    case Data(row) => Show(row)
    case Remark(indent, comment) => indent + (match comment case None => "" case Some(c) => "#" + c)
  }

  predicate LegibleLine(l: TextLine) {
    match l
    case Data(row) => Legible(row)
    case Remark(indent, comment) => Blank(indent) && (comment.Some? ==> OneLine(comment.value))
  }

  predicate LegibleFile(f: File) {
    (forall i :: 0 <= i < |f.lines| ==> LegibleLine(f.lines[i].0)) && LegibleLine(f.last)
  }

  function Body(lines: seq<(TextLine, bool)>, last: TextLine): (s: string) {
    if lines == [] then LineText(last)
    else LineText(lines[0].0) + ((if lines[0].1 then "\r\n" else "\n") + Body(lines[1..], last))
  }

  function FileText(f: File): (s: string) { (if f.bom then "\U{FEFF}" else "") + Body(f.lines, f.last) }

  function RowsInLine(read: Written -> Row, l: TextLine): (rows: seq<Row>) { if l.Data? then [read(l.row)] else [] }

  /** The rows of the file in order, each as it is read. */
  function RowsIn(read: Written -> Row, lines: seq<(TextLine, bool)>, last: TextLine): (rows: seq<Row>) {
    if lines == [] then RowsInLine(read, last) else RowsInLine(read, lines[0].0) + RowsIn(read, lines[1..], last)
  }

  lemma LineRead(l: TextLine)
    requires LegibleLine(l)
    ensures OneLine(LineText(l)) && (LineText(l) != "" ==> LineText(l)[0] != '\U{FEFF}')
    ensures l.Remark? ==> CleanLine(LineText(l)) == ""
    ensures l.Data? ==>
              CleanLine(LineText(l)) != "" && ReadRow(CleanLine(LineText(l))) == Some(RowRead(l.row))
  {
    match l
    case Data(row) => ReadShown(row);
    case Remark(indent, comment) => RemarkVanishes(indent, comment);
  }

  // ---- line ends ----

  lemma {:induction false} NewlineAfter(l: string, rest: string)
    requires '\n' !in l
    ensures NewlineIndex(l + ("\n" + rest)) == |l|
  {
    if l == "" {
      assert l + ("\n" + rest) == "\n" + rest;
    } else {
      assert l[0] in l;
      assert (l + ("\n" + rest))[1..] == l[1..] + ("\n" + rest);
      NewlineAfter(l[1..], rest);
    }
  }

  lemma {:induction false} NoNewline(l: string)
    requires '\n' !in l
    ensures NewlineIndex(l) == |l|
  {
    if l != "" { NoNewline(l[1..]); }
  }

  /** Both line ends are removed, and nothing else. */
  lemma SplitStep(l: string, crlf: bool, rest: string)
    requires OneLine(l)
    ensures SplitLines(l + ((if crlf then "\r\n" else "\n") + rest)) == [l] + SplitLines(rest)
  {
    var line := if crlf then l + "\r" else l;
    var s := line + ("\n" + rest);
    assert s == l + ((if crlf then "\r\n" else "\n") + rest);
    forall c | c in line ensures c != '\n' { assert c == '\r' || c in l; }
    NewlineAfter(line, rest);
    assert s[..|line|] == line && s[|line| + 1..] == rest;
    ChopEnd(l, crlf);
  }

  lemma ChopEnd(l: string, crlf: bool)
    requires OneLine(l)
    ensures ChopReturn(if crlf then l + "\r" else l) == l
  {
    if !crlf && l != "" { assert l[|l| - 1] in l; }
  }

  lemma SplitLast(l: string)
    requires OneLine(l)
    ensures SplitLines(l) == [l]
  {
    NoNewline(l);
  }

  /** The lines are read as the rows, one by one. */
  ghost predicate ReadAs(read: string -> Option<Row>, lines: seq<string>, rows: seq<Row>) {
    |lines| == |rows| && forall i :: 0 <= i < |rows| ==> read(lines[i]) == Some(rows[i])
  }

  lemma ReadAsConcat(read: string -> Option<Row>, a: seq<string>, x: seq<Row>, b: seq<string>, y: seq<Row>)
    requires ReadAs(read, a, x) && ReadAs(read, b, y)
    ensures ReadAs(read, a + b, x + y)
  {
  }

  function Kept(l: string): (r: seq<string>) { if l == "" then [] else [l] }

  lemma LineKept(l: TextLine)
    requires LegibleLine(l)
    ensures ReadAs(ReadRow, Kept(CleanLine(LineText(l))), RowsInLine(RowRead, l))
  {
    LineRead(l);
  }

  lemma OneCleaned(l: string, rest: seq<string>)
    ensures CleanLines([l] + rest) == Kept(CleanLine(l)) + CleanLines(rest)
  {
    assert ([l] + rest)[1..] == rest;
  }

  /** The cleaned lines of a body are those of its rows, and are read as they are. */
  lemma {:induction false} CleanBody(lines: seq<(TextLine, bool)>, last: TextLine)
    requires (forall i :: 0 <= i < |lines| ==> LegibleLine(lines[i].0)) && LegibleLine(last)
    ensures ReadAs(ReadRow, CleanLines(SplitLines(Body(lines, last))), RowsIn(RowRead, lines, last))
  {
    if lines == [] {
      LineRead(last);
      SplitLast(LineText(last));
      CleanOne(LineText(last));
      LineKept(last);
    } else {
      CleanBody(lines[1..], last);
      BodyStep(lines[0].0, lines[0].1, Body(lines[1..], last), RowsIn(RowRead, lines[1..], last));
    }
  }

  lemma CleanOne(l: string)
    ensures CleanLines([l]) == Kept(CleanLine(l))
  {
    OneCleaned(l, []);
    assert [l] + [] == [l] && CleanLines([]) == [];
  }

  lemma BodyStep(l: TextLine, crlf: bool, rest: string, rows: seq<Row>)
    requires LegibleLine(l) && ReadAs(ReadRow, CleanLines(SplitLines(rest)), rows)
    ensures ReadAs(ReadRow, CleanLines(SplitLines(LineText(l) + ((if crlf then "\r\n" else "\n") + rest))),
                   RowsInLine(RowRead, l) + rows)
  {
    LineRead(l);
    SplitStep(LineText(l), crlf, rest);
    OneCleaned(LineText(l), SplitLines(rest));
    LineKept(l);
    ReadAsConcat(ReadRow, Kept(CleanLine(LineText(l))), RowsInLine(RowRead, l), CleanLines(SplitLines(rest)), rows);
  }

  lemma FirstChar(lines: seq<(TextLine, bool)>, last: TextLine)
    requires (forall i :: 0 <= i < |lines| ==> LegibleLine(lines[i].0)) && LegibleLine(last)
    ensures Body(lines, last) != "" ==> Body(lines, last)[0] != '\U{FEFF}'
  {
    if lines == [] {
      LineRead(last);
    } else {
      LineRead(lines[0].0);
    }
  }

  lemma BomStripped(f: File)
    requires LegibleFile(f)
    ensures StripBom(FileText(f)) == Body(f.lines, f.last)
  {
    FirstChar(f.lines, f.last);
    if f.bom { assert FileText(f)[1..] == Body(f.lines, f.last); }
  }

  // ---- parsing a file ----

  /** The document that rows describe, without any text. */
  function RowsFrom(rows: seq<Row>, st: State): (r: Result<Document, ParseError>) {
    if rows == [] then Ok(Finish(st))
    else match Put(st, rows[0])
      case Err(e) => Err(e)
      case Ok(st') => RowsFrom(rows[1..], st')
  }

  lemma {:induction false} ParseRows(read: string -> Option<Row>, lines: seq<string>, rows: seq<Row>, st: State)
    requires ReadAs(read, lines, rows)
    ensures ParseFrom(read, lines, st) == RowsFrom(rows, st)
  {
    if rows != [] {
      var put := Put(st, rows[0]);
      if put.Ok? { ParseRows(read, lines[1..], rows[1..], put.value); }
    }
  }

  /** A line that is a row is not the empty list. */
  lemma RowIsNoList(l: string)
    requires ReadRow(l).Some?
    ensures Trim(l) != "[]"
  {
    if Trim(l) == "[]" { BracketsAreNoRow(l); }
  }

  lemma BracketsAreNoRow(l: string)
    requires Trim(l) == "[]"
    ensures ReadRow(l).None?
  {
    var e := TrimEnd(l);
    SameLeading(l);
    assert TrimStart(e)[0] == '[' && TrimStart(l)[0] == e[LeadingSpaces(e)];
  }

  lemma SameLeading(l: string)
    requires Trim(l) != ""
    ensures LeadingSpaces(l) == LeadingSpaces(TrimEnd(l))
  {
    var e := TrimEnd(l);
    var k := LeadingSpaces(e);
    assert l == e[..k] + l[k..];
    assert l[k] == e[k];
    LeadingAfter(e[..k], l[k..]);
  }

  /** Whatever the layout of a file, its byte order mark, its line ends, its blank and comment lines, it
      parses to what its rows describe, or to the error they deserve. */
  lemma ParseFile(f: File)
    requires LegibleFile(f)
    ensures Parse(FileText(f)) == RowsFrom(RowsIn(RowRead, f.lines, f.last), START)
  {
    BomStripped(f);
    CleanBody(f.lines, f.last);
    var clean := CleanLines(SplitLines(Body(f.lines, f.last)));
    if |clean| == 1 { RowIsNoList(clean[0]); }
    ParseRows(ReadRow, clean, RowsIn(RowRead, f.lines, f.last), START);
  }

  lemma ParseList(src: string, l: string)
    requires CleanLines(SplitLines(StripBom(src))) == [l] && Trim(l) == "[]"
    ensures Parse(src) == Ok(Document(map[], []))
  {
  }

  lemma BracketsText(indent: string, comment: Option<string>)
    requires Blank(indent) && (comment.Some? ==> OneLine(comment.value))
    ensures var l := (indent + "[]") + CommentText(comment);
            OneLine(l) && CleanLine(l) == indent + "[]" && StripBom(l) == l
  {
    BlankText(indent);
    OneLineConcat(indent, "[]");
    CutComment(indent + "[]", comment);
    BracketsClean(indent);
    if indent != "" { assert indent[0] in indent; }
  }

  /** A file with nothing but an empty list in it. */
  lemma EmptyList(indent: string, comment: Option<string>)
    requires Blank(indent) && (comment.Some? ==> OneLine(comment.value))
    ensures Parse((indent + "[]") + CommentText(comment)) == Ok(Document(map[], []))
  {
    var l := (indent + "[]") + CommentText(comment);
    BracketsText(indent, comment);
    SplitLast(l);
    CleanOne(l);
    BracketsClean(indent);
    ParseList(l, indent + "[]");
  }

  lemma BracketsClean(indent: string)
    requires Blank(indent)
    ensures CleanLine(indent + "[]") == indent + "[]" && Trim(indent + "[]") == "[]"
  {
    var s := indent + "[]";
    BlankText(indent);
    OneLineConcat(indent, "[]");
    forall c | c in s ensures c != '#' { assert c in indent || c in "[]"; }
    forall p | 0 <= p < |s| ensures !CommentAt(s, p) {
      CommentAtIff(s, p);
      if p + 1 < |s| { assert s[p + 1] in s; }
      assert s[p] in s;
    }
    FirstComment(s, |s|);
    assert s[..|s|] == s;
    LeadingAfter(indent, "[]");
  }

  // ---- documents ----

  datatype Style = Plain | Single | Double

  datatype Kind = Top | Dash | Indented

  datatype Item = Item(key: string, value: Value, style: Style, comment: Option<string>)

  datatype PrintedRow = PrintedRow(kind: Kind, item: Item)

  datatype Source = Source(header: seq<Item>, groups: seq<seq<Item>>)

  /** The style is how a string is written: as it is, or between quotes. */
  function PrintValue(v: Value, style: Style): (s: string) {
    match v
    case Null => "null"
    case Bool(b) => if b then "true" else "false"
    case Int(n) => Decimal(n)
    case Str(s) => match style case Plain => s case Single => ['\''] + s + ['\''] case Double => ['"'] + s + ['"']
  }

  function LayoutOf(kind: Kind): (l: Layout) {
    match kind
    case Top => Layout("", "", "")
    case Dash => Layout("", " ", "")
    case Indented => Layout("  ", "", "")
  }

  function WrittenRow(r: PrintedRow): (w: Written) {
    Written(r.kind.Dash?, LayoutOf(r.kind), r.item.key, PrintValue(r.item.value, r.item.style), r.item.comment)
  }

  function RowOf(r: PrintedRow): (row: Row) { Row(r.kind.Indented?, r.kind.Dash?, r.item.key, r.item.value) }

  function RowsOf(rows: seq<PrintedRow>): (r: seq<Row>) {
    seq(|rows|, i requires 0 <= i < |rows| => RowOf(rows[i]))
  }

  /** Each row on a line of its own. */
  function Text(rows: seq<PrintedRow>): (s: string) { Body(LinesOf(rows), Remark("", None)) }

  function LinesOf(rows: seq<PrintedRow>): (lines: seq<(TextLine, bool)>) {
    seq(|rows|, i requires 0 <= i < |rows| => (Data(WrittenRow(rows[i])), false))
  }

  // ---- what can be printed ----

  predicate OneLineValue(v: Value) { v.Str? ==> OneLine(v.s) }

  /** Quotes carry every string without line breaks in which no `#` follows white space; without quotes
      the text must not look like anything else either. */
  predicate Printable(v: Value, style: Style) {
    v.Str? ==> if style.Plain? then PlainText(v.s) else OneLine(v.s) && NoHashAfterSpace(v.s)
  }

  predicate Nameable(item: Item) { IsIdent(item.key) && (item.comment.Some? ==> OneLine(item.comment.value)) }

  predicate PrintableItem(item: Item) { Nameable(item) && Printable(item.value, item.style) }

  predicate OneLineItem(item: Item) { Nameable(item) && OneLineValue(item.value) }

  function Reread(item: Item): (r: Item) { item.(value := Reading(PrintValue(item.value, item.style))) }

  predicate ReadsBack(text: string, v: Value) { OneLine(text) && Reading(text) == v }

  lemma IntReadsBack(n: int)
    ensures ReadsBack(Decimal(n), Int(n))
  {
    DecimalRead(n);
  }

  lemma BoolReadsBack(b: bool)
    ensures ReadsBack(if b then "true" else "false", Bool(b))
  {
    BoolRead(b);
  }

  lemma NullReadsBack()
    ensures ReadsBack("null", Null)
  {
    NullRead();
  }

  lemma NotStringRead(v: Value, style: Style)
    requires !v.Str?
    ensures ReadsBack(PrintValue(v, style), v)
  {
    forall n ensures ReadsBack(Decimal(n), Int(n)) { IntReadsBack(n); }
    forall b ensures ReadsBack(if b then "true" else "false", Bool(b)) { BoolReadsBack(b); }
    NullReadsBack();
    NotStringBy(ReadsBack, v, style);
  }

  lemma NotStringBy(good: (string, Value) -> bool, v: Value, style: Style)
    requires !v.Str? && good("null", Null)
    requires (forall n :: good(Decimal(n), Int(n))) && (forall b :: good(if b then "true" else "false", Bool(b)))
    ensures good(PrintValue(v, style), v)
  {
  }

  lemma StringRead(s: string, style: Style)
    requires OneLine(s)
    ensures OneLine(PrintValue(Str(s), style))
    ensures Reading(PrintValue(Str(s), style)) == Str(s) <==> Printable(Str(s), style)
  {
    match style
    case Plain => PlainIff(s);
    case Single =>
      QuotesOneLine(s, '\'');
      QuotedIff(s, '\'');
    case Double =>
      QuotesOneLine(s, '"');
      QuotedIff(s, '"');
  }

  lemma QuotesOneLine(s: string, q: char)
    requires OneLine(s) && (q == '\'' || q == '"')
    ensures OneLine([q] + s + [q])
  {
    forall c | c in [q] + s + [q] ensures !IsLineTerminator(c) { assert c == q || c in s; }
  }

  /** A value comes back from its text exactly if it is printable in its style. */
  lemma ValueReadIff(v: Value, style: Style)
    requires OneLineValue(v)
    ensures OneLine(PrintValue(v, style))
    ensures Reading(PrintValue(v, style)) == v <==> Printable(v, style)
  {
    if v.Str? { StringRead(v.s, style); } else { NotStringRead(v, style); }
  }

  lemma RowWritten(r: PrintedRow)
    requires OneLineItem(r.item)
    ensures Legible(WrittenRow(r)) && RowRead(WrittenRow(r)) == RowOf(r.(item := Reread(r.item)))
  {
    ValueReadIff(r.item.value, r.item.style);
  }

  function MapRows(f: Item -> Item, rows: seq<PrintedRow>): (r: seq<PrintedRow>) {
    seq(|rows|, i requires 0 <= i < |rows| => PrintedRow(rows[i].kind, f(rows[i].item)))
  }

  lemma {:induction false} RowsInLines(read: Written -> Row, rows: seq<PrintedRow>)
    ensures RowsIn(read, LinesOf(rows), Remark("", None))
            == seq(|rows|, i requires 0 <= i < |rows| => read(WrittenRow(rows[i])))
  {
    if rows != [] {
      assert LinesOf(rows)[0].0 == Data(WrittenRow(rows[0]));
      assert LinesOf(rows)[1..] == LinesOf(rows[1..]);
      RowsInLines(read, rows[1..]);
    }
  }

  lemma RowsWritten(rows: seq<PrintedRow>)
    requires forall i :: 0 <= i < |rows| ==> OneLineItem(rows[i].item)
    ensures RowsIn(RowRead, LinesOf(rows), Remark("", None)) == RowsOf(MapRows(Reread, rows))
    ensures forall i :: 0 <= i < |rows| ==> Legible(WrittenRow(rows[i]))
  {
    RowsInLines(RowRead, rows);
    forall i | 0 <= i < |rows|
      ensures Legible(WrittenRow(rows[i])) && RowRead(WrittenRow(rows[i])) == RowOf(MapRows(Reread, rows)[i])
    {
      RowWritten(rows[i]);
    }
  }

  /** Printed rows parse to what they describe once their values are read back. */
  lemma ParseWritten(rows: seq<PrintedRow>)
    requires forall i :: 0 <= i < |rows| ==> OneLineItem(rows[i].item)
    ensures Parse(Text(rows)) == RowsFrom(RowsOf(MapRows(Reread, rows)), START)
  {
    var f := File(false, LinesOf(rows), Remark("", None));
    RowsWritten(rows);
    ParseFile(f);
    NothingBefore(Body(f.lines, f.last));
  }

  /** Parsing printable rows, in any arrangement of top-level keys, items and continuation keys, gives
      the document the rows describe (or its error). */
  lemma ParsePrinted(rows: seq<PrintedRow>)
    requires forall i :: 0 <= i < |rows| ==> PrintableItem(rows[i].item)
    ensures Parse(Text(rows)) == RowsFrom(RowsOf(rows), START)
  {
    forall i | 0 <= i < |rows| ensures OneLineItem(rows[i].item) && Reread(rows[i].item) == rows[i].item {
      ValueReadIff(rows[i].item.value, rows[i].item.style);
    }
    ParseWritten(rows);
    assert MapRows(Reread, rows) == rows;
  }

  function EntryFrom(m: Entry, items: seq<Item>): (e: Entry)
    decreases |items|
  {
    if items == [] then m else EntryFrom(m[items[0].key := items[0].value], items[1..])
  }

  /** The entry a list of items denotes. */
  function EntryOf(items: seq<Item>): (e: Entry) { EntryFrom(map[], items) }

  function RowsAs(kind: Kind, items: seq<Item>): (rows: seq<PrintedRow>) {
    seq(|items|, i requires 0 <= i < |items| => PrintedRow(kind, items[i]))
  }

  function GroupRows(g: seq<Item>): (rows: seq<PrintedRow>)
    requires g != []
  {
    [PrintedRow(Dash, g[0])] + RowsAs(Indented, g[1..])
  }

  function GroupsRows(groups: seq<seq<Item>>): (rows: seq<PrintedRow>)
    requires forall i :: 0 <= i < |groups| ==> groups[i] != []
  {
    if groups == [] then [] else GroupRows(groups[0]) + GroupsRows(groups[1..])
  }

  predicate ValidSource(d: Source) {
    && (forall i :: 0 <= i < |d.header| ==> PrintableItem(d.header[i]))
    && (forall i :: 0 <= i < |d.groups| ==> d.groups[i] != [])
    && (forall i, j :: 0 <= i < |d.groups| && 0 <= j < |d.groups[i]| ==> PrintableItem(d.groups[i][j]))
  }

  function SourceRows(d: Source): (rows: seq<PrintedRow>)
    requires forall i :: 0 <= i < |d.groups| ==> d.groups[i] != []
  {
    RowsAs(Top, d.header) + GroupsRows(d.groups)
  }

  function DocumentOf(d: Source): (doc: Document) {
    Document(EntryOf(d.header), seq(|d.groups|, i requires 0 <= i < |d.groups| => EntryOf(d.groups[i])))
  }

  lemma RowsStep(row: Row, rest: seq<Row>, st: State)
    requires Put(st, row).Ok?
    ensures RowsFrom([row] + rest, st) == RowsFrom(rest, Put(st, row).value)
  {
    assert ([row] + rest)[1..] == rest;
  }

  /** Unindented rows before the first item fill the document-wide settings. */
  lemma {:induction false} HeaderRows(items: seq<Item>, rest: seq<Row>, st: State)
    requires st.current.None?
    ensures RowsFrom(RowsOf(RowsAs(Top, items)) + rest, st)
            == RowsFrom(rest, st.(topLevel := EntryFrom(st.topLevel, items)))
    decreases |items|
  {
    var rows := RowsOf(RowsAs(Top, items));
    if items == [] {
      assert rows + rest == rest;
    } else {
      var tail := RowsOf(RowsAs(Top, items[1..])) + rest;
      assert rows + rest == [rows[0]] + tail;
      RowsStep(rows[0], tail, st);
      HeaderRows(items[1..], rest, Put(st, rows[0]).value);
    }
  }

  /** Rows without a dash inside an item extend it, whatever their indentation. */
  lemma {:induction false} BodyRows(kind: Kind, items: seq<Item>, rest: seq<Row>, st: State)
    requires st.current.Some? && kind != Dash
    ensures RowsFrom(RowsOf(RowsAs(kind, items)) + rest, st)
            == RowsFrom(rest, st.(current := Some(EntryFrom(st.current.value, items))))
    decreases |items|
  {
    var rows := RowsOf(RowsAs(kind, items));
    if items == [] {
      assert rows + rest == rest;
    } else {
      var tail := RowsOf(RowsAs(kind, items[1..])) + rest;
      assert rows + rest == [rows[0]] + tail;
      RowsStep(rows[0], tail, st);
      BodyRows(kind, items[1..], rest, Put(st, rows[0]).value);
    }
  }

  function Flushed(st: State): (entries: seq<Entry>) { Finish(st).entries }

  lemma GroupRead(g: seq<Item>, rest: seq<Row>, st: State)
    requires g != []
    ensures RowsFrom(RowsOf(GroupRows(g)) + rest, st)
            == RowsFrom(rest, State(st.topLevel, Flushed(st), Some(EntryOf(g))))
  {
    var first := RowOf(PrintedRow(Dash, g[0]));
    var body := RowsOf(RowsAs(Indented, g[1..]));
    assert RowsOf(GroupRows(g)) + rest == [first] + (body + rest);
    RowsStep(first, body + rest, st);
    BodyRows(Indented, g[1..], rest, Put(st, first).value);
    assert EntryOf(g) == EntryFrom(map[g[0].key := g[0].value], g[1..]);
  }

  lemma {:induction false} GroupsRead(groups: seq<seq<Item>>, rest: seq<Row>, st: State) returns (st': State)
    requires forall i :: 0 <= i < |groups| ==> groups[i] != []
    ensures RowsFrom(RowsOf(GroupsRows(groups)) + rest, st) == RowsFrom(rest, st')
    ensures st'.topLevel == st.topLevel
    ensures Flushed(st') == Flushed(st) + seq(|groups|, i requires 0 <= i < |groups| => EntryOf(groups[i]))
    ensures groups != [] ==> st'.current.Some?
    ensures groups == [] ==> st' == st
    decreases |groups|
  {
    if groups == [] {
      assert RowsOf(GroupsRows(groups)) + rest == rest;
      st' := st;
    } else {
      var tail := RowsOf(GroupsRows(groups[1..])) + rest;
      assert RowsOf(GroupsRows(groups)) + rest == RowsOf(GroupRows(groups[0])) + tail;
      GroupRead(groups[0], tail, st);
      st' := GroupsRead(groups[1..], rest, State(st.topLevel, Flushed(st), Some(EntryOf(groups[0]))));
      assert seq(|groups|, i requires 0 <= i < |groups| => EntryOf(groups[i]))
             == [EntryOf(groups[0])] + seq(|groups[1..]|, i requires 0 <= i < |groups[1..]| => EntryOf(groups[1..][i]));
    }
  }

  lemma {:induction false} GroupsAll(groups: seq<seq<Item>>, good: Item -> bool)
    requires forall i :: 0 <= i < |groups| ==> groups[i] != []
    requires forall i, j :: 0 <= i < |groups| && 0 <= j < |groups[i]| ==> good(groups[i][j])
    ensures forall k :: 0 <= k < |GroupsRows(groups)| ==> good(GroupsRows(groups)[k].item)
  {
    if groups != [] { GroupsAll(groups[1..], good); }
  }

  /** All items of the document are good. */
  ghost predicate AllItems(good: Item -> bool, d: Source) {
    && (forall i :: 0 <= i < |d.header| ==> good(d.header[i]))
    && (forall i, j :: 0 <= i < |d.groups| && 0 <= j < |d.groups[i]| ==> good(d.groups[i][j]))
  }

  lemma SourceAll(d: Source, good: Item -> bool)
    requires (forall i :: 0 <= i < |d.groups| ==> d.groups[i] != []) && AllItems(good, d)
    ensures forall k :: 0 <= k < |SourceRows(d)| ==> good(SourceRows(d)[k].item)
  {
    GroupsAll(d.groups, good);
  }

  lemma SourceRead(d: Source, rest: seq<Row>) returns (st: State)
    requires forall i :: 0 <= i < |d.groups| ==> d.groups[i] != []
    ensures RowsFrom(RowsOf(SourceRows(d)) + rest, START) == RowsFrom(rest, st)
    ensures Finish(st) == DocumentOf(d)
    ensures st.current.Some? <==> d.groups != []
  {
    var body := RowsOf(GroupsRows(d.groups)) + rest;
    assert RowsOf(SourceRows(d)) + rest == RowsOf(RowsAs(Top, d.header)) + body;
    HeaderRows(d.header, body, START);
    st := GroupsRead(d.groups, rest, START.(topLevel := EntryOf(d.header)));
  }

  lemma SourceParsed(d: Source)
    requires forall i :: 0 <= i < |d.groups| ==> d.groups[i] != []
    ensures RowsFrom(RowsOf(SourceRows(d)), START) == Ok(DocumentOf(d))
  {
    var st := SourceRead(d, []);
    assert RowsOf(SourceRows(d)) + [] == RowsOf(SourceRows(d));
  }

  /** Print-then-parse is the identity on documents: settings, items, comments, all value kinds, and
      strings written plainly or between single or double quotes. */
  lemma RoundTrip(d: Source)
    requires ValidSource(d)
    ensures Parse(Text(SourceRows(d))) == Ok(DocumentOf(d))
  {
    SourceAll(d, PrintableItem);
    ParsePrinted(SourceRows(d));
    SourceParsed(d);
  }

  /** With distinct keys an entry holds exactly the printed pairs. */
  lemma {:induction false} EntryOfDistinct(m: Entry, items: seq<Item>)
    requires forall i, j :: 0 <= i < j < |items| ==> items[i].key != items[j].key
    ensures forall i :: 0 <= i < |items| ==>
              items[i].key in EntryFrom(m, items) && EntryFrom(m, items)[items[i].key] == items[i].value
    ensures forall k :: (forall i :: 0 <= i < |items| ==> items[i].key != k) ==>
              (k in EntryFrom(m, items) <==> k in m) && (k in m ==> EntryFrom(m, items)[k] == m[k])
    decreases |items|
  {
    if items != [] {
      EntryOfDistinct(m[items[0].key := items[0].value], items[1..]);
    }
  }

  /** The document with one more key: in its settings if it has no items, else in its last item. */
  function WithTrailing(doc: Document, key: string, value: Value): (r: Document) {
    if doc.entries == [] then doc.(topLevel := doc.topLevel[key := value])
    else
      var last := |doc.entries| - 1;
      doc.(entries := doc.entries[last := doc.entries[last][key := value]])
  }

  lemma TrailingRow(st: State, row: Row)
    requires !row.dash && !row.indented
    ensures RowsFrom([row], st)
            == Ok(if st.current.None? then Finish(st.(topLevel := st.topLevel[row.key := row.value]))
                  else WithTrailing(Finish(st), row.key, row.value))
  {
    RowsStep(row, [], st);
    assert [row] + [] == [row];
    if st.current.Some? {
      var cur := st.current.value;
      assert (st.entries + [cur])[|st.entries| := cur[row.key := row.value]]
             == st.entries + [cur[row.key := row.value]];
    }
  }

  /** The loader's own description allows document-wide keys after the list; the loader does not:
      after the first item such a key is read as one more key of the last item. */
  lemma TrailingKeyIsSwallowed(d: Source, extra: Item)
    requires ValidSource(d) && PrintableItem(extra)
    ensures Parse(Text(SourceRows(d) + [PrintedRow(Top, extra)]))
            == Ok(WithTrailing(DocumentOf(d), extra.key, extra.value))
  {
    var rows, row := SourceRows(d) + [PrintedRow(Top, extra)], Row(false, false, extra.key, extra.value);
    SourceAll(d, PrintableItem);
    assert RowsOf(rows) == RowsOf(SourceRows(d)) + [row];
    assert RowsFrom(RowsOf(rows), START) == Ok(WithTrailing(DocumentOf(d), extra.key, extra.value)) by {
      var st := SourceRead(d, [row]);
      TrailingRow(st, row);
    }
    ParsePrinted(rows);
  }

  // ---- the condition on values is exact ----

  ghost predicate Holds(good: Value -> bool, e: Entry) { forall k :: k in e ==> good(e[k]) }

  /** Every value of the document, in its settings and in all its entries, is good. */
  ghost predicate HoldsIn(good: Value -> bool, d: Document) {
    Holds(good, d.topLevel) && forall i :: 0 <= i < |d.entries| ==> Holds(good, d.entries[i])
  }

  lemma CoerceOneLine(v: string)
    requires OneLine(v)
    ensures OneLineValue(Coerce(v))
  {}

  lemma MatchOneLine(l: string)
    ensures MatchLine(l).Some? ==> OneLine(MatchLine(l).value.val)
  {}

  lemma ReadOneLine(l: string)
    ensures ReadRow(l).Some? ==> OneLineValue(ReadRow(l).value.value)
  {
    MatchOneLine(l);
    if MatchLine(l).Some? {
      var val := MatchLine(l).value.val;
      assert OneLine(Trim(val)) by { assert TrimEnd(val) <= val; }
      CoerceOneLine(Trim(val));
    }
  }

  /** What every readable line yields, the document holds. */
  lemma {:induction false} ParsedValues(read: string -> Option<Row>, lines: seq<string>, st: State, good: Value -> bool)
    requires forall i :: 0 <= i < |lines| && read(lines[i]).Some? ==> good(read(lines[i]).value.value)
    requires HoldsIn(good, Finish(st))
    ensures ParseFrom(read, lines, st).Ok? ==> HoldsIn(good, ParseFrom(read, lines, st).value)
    decreases |lines|
  {
    if lines != [] && read(lines[0]).Some? {
      var put := Put(st, read(lines[0]).value);
      if put.Ok? {
        PutHolds(st, read(lines[0]).value, good);
        ParsedValues(read, lines[1..], put.value, good);
      }
    }
  }

  lemma PutHolds(st: State, row: Row, good: Value -> bool)
    requires good(row.value) && HoldsIn(good, Finish(st)) && Put(st, row).Ok?
    ensures HoldsIn(good, Finish(Put(st, row).value))
  {
    var entries := Finish(st).entries;
    if st.current.Some? {
      assert entries[|st.entries|] == st.current.value;
      assert forall i :: 0 <= i < |st.entries| ==> entries[i] == st.entries[i];
    }
  }

  lemma ParsedFrom(src: string, clean: seq<string>, good: Value -> bool)
    requires clean == CleanLines(SplitLines(StripBom(src)))
    requires forall i :: 0 <= i < |clean| && ReadRow(clean[i]).Some? ==> good(ReadRow(clean[i]).value.value)
    ensures Parse(src).Ok? ==> HoldsIn(good, Parse(src).value)
  {
    ParsedValues(ReadRow, clean, START, good);
  }

  /** No parsed value, in the settings or in an entry, contains a line break, whatever the text was. */
  lemma ParsedOneLine(src: string)
    ensures Parse(src).Ok? ==> HoldsIn(OneLineValue, Parse(src).value)
  {
    forall l: string ensures ReadRow(l).Some? ==> OneLineValue(ReadRow(l).value.value) { ReadOneLine(l); }
    ParsedFrom(src, CleanLines(SplitLines(StripBom(src))), OneLineValue);
  }

  ghost predicate DistinctKeys(items: seq<Item>) {
    forall i, j :: 0 <= i < j < |items| ==> items[i].key != items[j].key
  }

  /** Non-empty groups, identifier keys that do not repeat, comments on one line; any values at all. */
  ghost predicate WritableSource(d: Source) {
    && DistinctKeys(d.header) && (forall i :: 0 <= i < |d.groups| ==> d.groups[i] != [] && DistinctKeys(d.groups[i]))
    && AllItems(Nameable, d)
  }

  /** With distinct keys the document loses no item. */
  lemma ItemsInDocument(d: Source)
    requires WritableSource(d) && HoldsIn(OneLineValue, DocumentOf(d))
    ensures AllItems(OneLineItem, d)
  {
    EntryOfDistinct(map[], d.header);
    forall i, j | 0 <= i < |d.groups| && 0 <= j < |d.groups[i]| ensures OneLineItem(d.groups[i][j]) {
      EntryOfDistinct(map[], d.groups[i]);
      assert DocumentOf(d).entries[i] == EntryOf(d.groups[i]);
    }
  }

  function MapItems(f: Item -> Item, items: seq<Item>): (r: seq<Item>) {
    seq(|items|, i requires 0 <= i < |items| => f(items[i]))
  }

  function MapGroups(f: Item -> Item, groups: seq<seq<Item>>): (r: seq<seq<Item>>) {
    seq(|groups|, i requires 0 <= i < |groups| => MapItems(f, groups[i]))
  }

  function MapSource(f: Item -> Item, d: Source): (r: Source) { Source(MapItems(f, d.header), MapGroups(f, d.groups)) }

  lemma MappedNonEmpty(f: Item -> Item, groups: seq<seq<Item>>)
    requires forall i :: 0 <= i < |groups| ==> groups[i] != []
    ensures forall i :: 0 <= i < |groups| ==> MapGroups(f, groups)[i] != []
  {
    forall i | 0 <= i < |groups| ensures |MapGroups(f, groups)[i]| == |groups[i]| {}
  }

  lemma {:induction false} MappedGroups(f: Item -> Item, groups: seq<seq<Item>>)
    requires forall i :: 0 <= i < |groups| ==> groups[i] != []
    ensures forall i :: 0 <= i < |groups| ==> MapGroups(f, groups)[i] != []
    ensures GroupsRows(MapGroups(f, groups)) == MapRows(f, GroupsRows(groups))
  {
    MappedNonEmpty(f, groups);
    if groups != [] {
      MappedGroups(f, groups[1..]);
      assert MapGroups(f, groups)[1..] == MapGroups(f, groups[1..]);
      MappedGroup(f, groups[0]);
    }
  }

  lemma MappedGroup(f: Item -> Item, g: seq<Item>)
    requires g != []
    ensures MapItems(f, g) != [] && GroupRows(MapItems(f, g)) == MapRows(f, GroupRows(g))
  {
    assert MapItems(f, g)[1..] == MapItems(f, g[1..]);
  }

  lemma MappedRows(f: Item -> Item, d: Source)
    requires forall i :: 0 <= i < |d.groups| ==> d.groups[i] != []
    ensures forall i :: 0 <= i < |d.groups| ==> MapSource(f, d).groups[i] != []
    ensures SourceRows(MapSource(f, d)) == MapRows(f, SourceRows(d))
  {
    MappedGroups(f, d.groups);
    assert RowsAs(Top, MapItems(f, d.header)) == MapRows(f, RowsAs(Top, d.header));
  }

  /** Two item lists with the same distinct keys give one entry only if their values are the same. */
  lemma SameEntry(a: seq<Item>, b: seq<Item>)
    requires DistinctKeys(a) && |a| == |b| && forall i :: 0 <= i < |a| ==> a[i].key == b[i].key
    requires EntryOf(a) == EntryOf(b)
    ensures forall i :: 0 <= i < |a| ==> a[i].value == b[i].value
  {
    EntryOfDistinct(map[], a);
    EntryOfDistinct(map[], b);
  }

  lemma SameDocument(d: Source)
    requires WritableSource(d) && DocumentOf(MapSource(Reread, d)) == DocumentOf(d)
    ensures AllItems((item: Item) => Reread(item) == item, d)
  {
    SameEntry(d.header, MapItems(Reread, d.header));
    forall i, j | 0 <= i < |d.groups| && 0 <= j < |d.groups[i]| ensures Reread(d.groups[i][j]) == d.groups[i][j] {
      assert EntryOf(MapSource(Reread, d).groups[i]) == EntryOf(d.groups[i]) by {
        assert DocumentOf(MapSource(Reread, d)).entries[i] == DocumentOf(d).entries[i];
      }
      SameEntry(d.groups[i], MapItems(Reread, d.groups[i]));
    }
  }

  lemma ParseSource(d: Source)
    requires (forall i :: 0 <= i < |d.groups| ==> d.groups[i] != []) && AllItems(OneLineItem, d)
    ensures Parse(Text(SourceRows(d))) == Ok(DocumentOf(MapSource(Reread, d)))
  {
    SourceAll(d, OneLineItem);
    ParseWritten(SourceRows(d));
    MappedRows(Reread, d);
    SourceParsed(MapSource(Reread, d));
  }

  /** A document with distinct keys survives printing and parsing exactly if every value, in its settings
      and in its entries, is printable in the style in which it is written. */
  lemma RoundTripExact(d: Source)
    requires WritableSource(d)
    ensures Parse(Text(SourceRows(d))) == Ok(DocumentOf(d)) <==> AllItems(PrintableItem, d)
  {
    if AllItems(PrintableItem, d) {
      assert ValidSource(d);
      RoundTrip(d);
    } else if Parse(Text(SourceRows(d))) == Ok(DocumentOf(d)) {
      ParsedOneLine(Text(SourceRows(d)));
      ItemsInDocument(d);
      ParseSource(d);
      SameDocument(d);
      AllPrintable(d);
      assert false;
    }
  }

  lemma AllPrintable(d: Source)
    requires AllItems(OneLineItem, d) && AllItems((item: Item) => Reread(item) == item, d)
    ensures AllItems(PrintableItem, d)
  {
    forall i | 0 <= i < |d.header| ensures PrintableItem(d.header[i]) {
      ValueReadIff(d.header[i].value, d.header[i].style);
    }
    forall i, j | 0 <= i < |d.groups| && 0 <= j < |d.groups[i]| ensures PrintableItem(d.groups[i][j]) {
      ValueReadIff(d.groups[i][j].value, d.groups[i][j].style);
    }
  }
}
