/** The report layer of `SimpleXmlStringParser`: one libxml error as a
    block of text, a list of errors as a report, and the message of the
    exception raised when parsing fails. */
module ErrorReport {

  import opened Wrappers
  import opened PhpStrings
  import opened PhpValues

  /** The 44-dash rule: the header of a block without source context, and
      the footer of every block. */
  const Rule: string := Dashes(44)

  /** What the list renderer returns when there is nothing to render. */
  const NoErrors: string := "No Libxml Internal Errors!" + EOL

  /** libxml's severity levels. */
  const LIBXML_ERR_WARNING: int := 1
  const LIBXML_ERR_ERROR: int := 2
  const LIBXML_ERR_FATAL: int := 3

  /** The optional XML text a renderer is given: nothing (or a value that
      is neither a string nor an array), the text itself, or its lines. */
  datatype Source = NoSource | Text(text: string) | Lines(lines: seq<string>)

  /** The source lines, splitting a text at every `\R`. */
  function LinesOf(src: Source): Option<seq<string>> {
    match src
    case NoSource => None
    case Text(t) => Some(SplitLines(t))
    case Lines(ls) => Some(ls)
  }

  // ---------------------------------------------------------------------
  // One error: getLibXmlErrorAsString
  // ---------------------------------------------------------------------

  /** The offending line can be shown: lines are known and `line` is an int
      between 1 and the number of lines. */
  predicate HasContext(e: ErrorRecord, lines: Option<seq<string>>) {
    lines.Some? && e.line.VInt? && 0 < e.line.i <= |lines.value|
  }

  /** Where the caret goes: `column` when it is a non-negative int, else 0. */
  function CaretColumn(column: Value): nat {
    if column.VInt? && 0 <= column.i then column.i else 0
  }

  function ContextHeader(e: ErrorRecord, lines: Option<seq<string>>): string {
    if HasContext(e, lines) then
      lines.value[e.line.i - 1] + EOL + Dashes(CaretColumn(e.column)) + "^" + EOL
    else
      Rule + EOL
  }

  /** The code as shown between the parentheses. */
  function CodeText(code: Value): string {
    var c := if code.VInt? || code.VString? then Trim(StringOf(code).value) else "";
    if c == "" then "?" else c
  }

  /** The severity label, chosen by a loose `switch` on `level`. */
  function SeverityLabel(level: Value): string {
    if LooseEqualsInt(level, LIBXML_ERR_WARNING) then "Warning ("
    else if LooseEqualsInt(level, LIBXML_ERR_ERROR) then "Error ("
    else if LooseEqualsInt(level, LIBXML_ERR_FATAL) then "Fatal Error ("
    else "Unknown Error ("
  }

  /** `isset($v) ? $v : ''` in a string context. */
  function FieldText(v: Value): string
    requires HasStringForm(v)
  {
    if Isset(v) then StringOf(v).value else ""
  }

  /** `isset($v) ? trim((string)$v) : ''`. */
  function MessageText(v: Value): string
    requires HasStringForm(v)
  {
    if Isset(v) then Trim(StringOf(v).value) else ""
  }

  function FileLine(file: Value): string {
    if file.VString? && file.s != "" then EOL + "  File: " + file.s else ""
  }

  /** The closing rule of every block. */
  const Footer: string := EOL + Rule + EOL

  function SummaryLine(level: Value, code: Value, message: string): string {
    SeverityLabel(level) + CodeText(code) + "): " + message
  }

  function LineLine(line: string): string {
    EOL + "  Line: " + line
  }

  function ColumnLine(column: string): string {
    EOL + "  Column: " + column
  }

  /** The block of text between its header and its footer. */
  function Body(e: ErrorRecord, message: string, line: string, column: string): string {
    SummaryLine(e.level, e.code, message) + LineLine(line) + ColumnLine(column)
  }

  /** One error as a block of text; `None` where PHP raises an Error
      because `message`, `line` or `column` has no string form. */
  function RenderError(e: ErrorRecord, src: Source): (r: Option<string>)
    ensures r.Some? <==>
      HasStringForm(e.message) && HasStringForm(e.line) && HasStringForm(e.column)
    ensures r.Some? ==> EndsWith(r.value, Footer)
  {
    if HasStringForm(e.message) && HasStringForm(e.line) && HasStringForm(e.column) then
      var body := Body(e, MessageText(e.message), FieldText(e.line), FieldText(e.column));
      var h := ContextHeader(e, LinesOf(src));
      EndsWithConcat(body, FileLine(e.file) + Footer, Footer);
      EndsWithConcat(h, body + (FileLine(e.file) + Footer), Footer);
      Some(h + (body + (FileLine(e.file) + Footer)))
    else
      None
  }

  /** A suffix of the second part is a suffix of the whole. */
  lemma EndsWithConcat(a: string, b: string, suffix: string)
    requires EndsWith(b, suffix)
    ensures EndsWith(a + b, suffix)
  {
    assert (a + b)[|a + b| - |suffix|..] == b[|b| - |suffix|..];
  }

  /** The block opens with the offending source line and a caret under the
      column exactly when the line number points into the given lines;
      otherwise it opens with the rule. */
  lemma HeaderShape(e: ErrorRecord, src: Source)
    requires RenderError(e, src).Some?
    ensures var lines := LinesOf(src);
      if lines.Some? && e.line.VInt? && 1 <= e.line.i <= |lines.value| then
        lines.value[e.line.i - 1] + EOL + Dashes(CaretColumn(e.column)) + "^" + EOL
          <= RenderError(e, src).value
      else
        Rule + EOL <= RenderError(e, src).value
  {
  }

  /** The two headers can never be confused: a context header never equals
      the rule line. */
  lemma HeadersDiffer(e: ErrorRecord, lines: Option<seq<string>>)
    requires HasContext(e, lines)
    ensures ContextHeader(e, lines) != Rule + EOL
  {
    var h := ContextHeader(e, lines);
    assert h[|h| - 2] == '^';
    assert (Rule + EOL)[|Rule + EOL| - 2] == '-';
  }

  /** The code shown is never empty: `?` when the code is absent, not an int
      or string, or blank; otherwise its trimmed text. */
  lemma CodeShape(code: Value)
    ensures CodeText(code) != ""
    ensures !(code.VInt? || code.VString?) ==> CodeText(code) == "?"
    ensures code.VInt? ==> CodeText(code) == IntToString(code.i)
    ensures code.VString? ==>
      CodeText(code) == (if Trim(code.s) == "" then "?" else Trim(code.s))
  {
    if code.VInt? {
      IntToStringTrimmed(code.i);
    }
  }

  /** The label depends on `level` alone: 1, 2 and 3 are warning, error and
      fatal error; an absent level and every other int are unknown. */
  lemma SeverityCases(level: Value)
    ensures level.VInt? && level.i == LIBXML_ERR_WARNING ==> SeverityLabel(level) == "Warning ("
    ensures level.VInt? && level.i == LIBXML_ERR_ERROR ==> SeverityLabel(level) == "Error ("
    ensures level.VInt? && level.i == LIBXML_ERR_FATAL ==> SeverityLabel(level) == "Fatal Error ("
    ensures level.VNull? ==> SeverityLabel(level) == "Unknown Error ("
    ensures level.VInt? && !(1 <= level.i <= 3) ==> SeverityLabel(level) == "Unknown Error ("
  {
  }

  /** The block is the header, the body, the optional `File:` line and the footer. */
  lemma RenderErrorParts(e: ErrorRecord, src: Source)
    requires RenderError(e, src).Some?
    ensures RenderError(e, src).value ==
      ContextHeader(e, LinesOf(src))
      + (Body(e, MessageText(e.message), FieldText(e.line), FieldText(e.column))
         + (FileLine(e.file) + Footer))
  {
  }

  /** The four leading parts of a text split into five are a prefix of it. */
  lemma PrefixOfParts(h: string, a: string, b: string, c: string, t: string)
    ensures h + a + b + c <= h + ((a + b + c) + t)
  {
    assert h + ((a + b + c) + t) == (h + a + b + c) + t;
    assert ((h + a + b + c) + t)[..|h + a + b + c|] == h + a + b + c;
  }

  /** After the header come the label, the code and the trimmed message,
      then a `Line:` and a `Column:` line. */
  lemma BodyShape(e: ErrorRecord, src: Source)
    requires RenderError(e, src).Some?
    ensures ContextHeader(e, LinesOf(src))
      + SummaryLine(e.level, e.code, MessageText(e.message))
      + LineLine(FieldText(e.line)) + ColumnLine(FieldText(e.column))
      <= RenderError(e, src).value
  {
    RenderErrorParts(e, src);
    PrefixOfParts(ContextHeader(e, LinesOf(src)), SummaryLine(e.level, e.code, MessageText(e.message)),
      LineLine(FieldText(e.line)), ColumnLine(FieldText(e.column)), FileLine(e.file) + Footer);
  }

  /** What is left when the tail of a prefix is dropped is a prefix too. */
  lemma PrefixDrop(x: string, t: string, r: string)
    requires x + t <= r
    ensures x <= r
  {
    assert (x + t)[..|x|] == x;
  }

  /** The body with an empty `Line:` slot, as plain text. */
  lemma EmptyLineSlot(x: string, c: string, r: string)
    requires x + LineLine("") + ColumnLine(c) <= r
    ensures x + EOL + "  Line: " + EOL + "  Column: " <= r
  {
    assert x + LineLine("") + ColumnLine(c) == (x + EOL + "  Line: " + EOL + "  Column: ") + c;
    PrefixDrop(x + EOL + "  Line: " + EOL + "  Column: ", c, r);
  }

  /** The body with an empty message, as plain text. */
  lemma EmptyMessageSlot(h: string, lead: string, l: string, c: string, r: string)
    requires h + (lead + "): " + "") + LineLine(l) + c <= r
    ensures h + lead + "): " + EOL + "  Line: " <= r
  {
    assert h + (lead + "): " + "") + LineLine(l) + c == (h + lead + "): " + EOL + "  Line: ") + (l + c);
    PrefixDrop(h + lead + "): " + EOL + "  Line: ", l + c, r);
  }

  /** An unset `line` leaves its slot empty: the `Column:` label comes
      straight after the `Line:` label. */
  lemma UnsetLine(e: ErrorRecord, src: Source)
    requires RenderError(e, src).Some? && !Isset(e.line)
    ensures ContextHeader(e, LinesOf(src)) + SummaryLine(e.level, e.code, MessageText(e.message))
      + EOL + "  Line: " + EOL + "  Column: " <= RenderError(e, src).value
  {
    BodyShape(e, src);
    assert FieldText(e.line) == "";
    EmptyLineSlot(ContextHeader(e, LinesOf(src)) + SummaryLine(e.level, e.code, MessageText(e.message)),
      FieldText(e.column), RenderError(e, src).value);
  }

  /** An unset `message` leaves nothing between the code and the `Line:` line. */
  lemma UnsetMessage(e: ErrorRecord, src: Source)
    requires RenderError(e, src).Some? && !Isset(e.message)
    ensures ContextHeader(e, LinesOf(src)) + SeverityLabel(e.level) + CodeText(e.code) + "): "
      + EOL + "  Line: " <= RenderError(e, src).value
  {
    BodyShape(e, src);
    assert MessageText(e.message) == "";
    EmptyMessageSlot(ContextHeader(e, LinesOf(src)), SeverityLabel(e.level) + CodeText(e.code),
      FieldText(e.line), ColumnLine(FieldText(e.column)), RenderError(e, src).value);
  }

  /** An unset `column`, with no `File:` line, closes the block with a bare
      `Column:` label before the footer. */
  lemma UnsetColumn(e: ErrorRecord, src: Source)
    requires RenderError(e, src).Some? && !Isset(e.column)
    requires !(e.file.VString? && e.file.s != "")
    ensures EndsWith(RenderError(e, src).value, EOL + "  Column: " + EOL + Rule + EOL)
  {
    TailColumn(e, src);
    assert EOL + "  Column: " + FieldText(e.column) + (EOL + Rule + EOL) == EOL + "  Column: " + EOL + Rule + EOL;
  }

  /** A suffix of a suffix is a suffix. */
  lemma EndsWithTail(s: string, a: string, b: string)
    requires EndsWith(s, a + b)
    ensures EndsWith(s, b)
  {
    assert s[|s| - |b|..] == s[|s| - |a + b|..][|a|..];
  }

  /** Every block ends with the rule and one line break. */
  lemma TailFooter(e: ErrorRecord, src: Source)
    requires RenderError(e, src).Some?
    ensures EndsWith(RenderError(e, src).value, Rule + EOL)
  {
    EndsWithTail(RenderError(e, src).value, EOL, Rule + EOL);
  }

  /** When `file` is a non-empty string, a `File:` line closes the body. */
  lemma TailFile(e: ErrorRecord, src: Source)
    requires RenderError(e, src).Some?
    requires e.file.VString? && e.file.s != ""
    ensures EndsWith(RenderError(e, src).value, EOL + "  File: " + e.file.s + (EOL + Rule + EOL))
  {
    var h := ContextHeader(e, LinesOf(src));
    var body := Body(e, MessageText(e.message), FieldText(e.line), FieldText(e.column));
    var fl := FileLine(e.file);
    RenderErrorParts(e, src);
    EndsWithConcat(body, fl + Footer, fl + Footer);
    EndsWithConcat(h, body + (fl + Footer), fl + Footer);
  }

  /** A suffix stays a suffix when the same text is appended to both. */
  lemma EndsWithAppend(s: string, suffix: string, t: string)
    requires EndsWith(s, suffix)
    ensures EndsWith(s + t, suffix + t)
  {
    assert (s + t)[|s + t| - |suffix + t|..] == s[|s| - |suffix|..] + t;
  }

  /** The body closes with its `Column:` line. */
  lemma BodyEndsWithColumn(e: ErrorRecord, m: string, l: string, c: string)
    ensures EndsWith(Body(e, m, l, c), ColumnLine(c))
  {
    var x := SummaryLine(e.level, e.code, m) + LineLine(l);
    assert Body(e, m, l, c) == x + ColumnLine(c);
    assert ColumnLine(c)[0..] == ColumnLine(c);
    EndsWithConcat(x, ColumnLine(c), ColumnLine(c));
  }

  /** Otherwise (no file, an empty one, or one that is not a string) the
      `Column:` line closes the body. */
  lemma TailColumn(e: ErrorRecord, src: Source)
    requires RenderError(e, src).Some?
    requires !(e.file.VString? && e.file.s != "")
    ensures EndsWith(RenderError(e, src).value, EOL + "  Column: " + FieldText(e.column) + (EOL + Rule + EOL))
  {
    var h := ContextHeader(e, LinesOf(src));
    var c := FieldText(e.column);
    var body := Body(e, MessageText(e.message), FieldText(e.line), c);
    RenderErrorParts(e, src);
    assert FileLine(e.file) + Footer == Footer;
    BodyEndsWithColumn(e, MessageText(e.message), FieldText(e.line), c);
    EndsWithAppend(body, ColumnLine(c), Footer);
    EndsWithConcat(h, body + Footer, ColumnLine(c) + Footer);
  }

  /** The last two characters of a block are the rule's final dash and a line break. */
  lemma BlockEnding(e: ErrorRecord, src: Source)
    requires RenderError(e, src).Some?
    ensures var r := RenderError(e, src).value;
      |r| >= 2 && r[|r| - 1] == '\n' && r[|r| - 2] == '-'
  {
    var r := RenderError(e, src).value;
    assert r[|r| - |Footer|..] == Footer;
    assert r[|r| - 1] == Footer[|Footer| - 1];
    assert r[|r| - 2] == Footer[|Footer| - 2];
  }

  // ---------------------------------------------------------------------
  // A list of errors: getLibXmlErrorsAsString
  // ---------------------------------------------------------------------

  /** The per-error renderer the list renderer calls. The source calls it
      through `static::`, so a subclass may put its own in place of
      `RenderError`. `ListReport` is what the loop returns for a renderer
      whose blocks are never empty, as `RenderError`'s are: the loop adds a
      separator only after a non-empty accumulator, so an empty block would
      drop separators that `Join` keeps. */
  type Renderer = (ErrorRecord, Source) -> Option<string>

  /** The error records of a list, in order; other entries are skipped. */
  function Records(xs: seq<Value>): seq<ErrorRecord>
    decreases |xs|
  {
    if xs == [] then []
    else Records(xs[..|xs| - 1]) + (if xs[|xs| - 1].VError? then [xs[|xs| - 1].err] else [])
  }

  /** The blocks of the given records, `None` when any of them fails. */
  function RenderAll(es: seq<ErrorRecord>, src: Source, render: Renderer): Option<seq<string>>
    decreases |es|
  {
    if es == [] then Some([])
    else
      var bs, b := RenderAll(es[..|es| - 1], src, render), render(es[|es| - 1], src);
      if bs.Some? && b.Some? then Some(bs.value + [b.value]) else None
  }

  /** The source as the list renderer hands it on: a text is split into
      its lines once, before any error is rendered. */
  function Prepared(src: Source): (p: Source)
    ensures !p.Text?
    ensures !src.Text? ==> p == src
  {
    if src.Text? then Lines(SplitLines(src.text)) else src
  }

  /** The report of a list: the sentinel when it holds no record, else the
      blocks of its records, rendered against the prepared source, joined
      by one line break. */
  function ListReport(xs: seq<Value>, src: Source, render: Renderer): Option<string> {
    var recs := Records(xs);
    if recs == [] then Some(NoErrors)
    else match RenderAll(recs, Prepared(src), render)
      case Some(bs) => Some(Join(bs, EOL))
      case None => None
  }

  lemma {:induction false} RecordsAppend(a: seq<Value>, b: seq<Value>)
    ensures Records(a + b) == Records(a) + Records(b)
    decreases |b|
  {
    if b == [] {
      assert a + b == a;
    } else {
      assert (a + b)[..|a + b| - 1] == a + b[..|b| - 1];
      RecordsAppend(a, b[..|b| - 1]);
    }
  }

  /** The records kept are exactly the record entries of the list. */
  lemma {:induction false} RecordsMembers(xs: seq<Value>)
    ensures forall e :: e in Records(xs) <==> VError(e) in xs
    ensures Records(xs) == [] <==> forall k | 0 <= k < |xs| :: !xs[k].VError?
    ensures |Records(xs)| <= |xs|
    decreases |xs|
  {
    if xs != [] {
      var init := xs[..|xs| - 1];
      RecordsMembers(init);
      assert xs == init + [xs[|xs| - 1]];
      if Records(xs) == [] {
        forall k | 0 <= k < |xs| ensures !xs[k].VError? {
          if k < |xs| - 1 { assert xs[k] == init[k]; }
        }
      } else {
        if Records(init) == [] {
          assert xs[|xs| - 1].VError?;
        } else {
          var k :| 0 <= k < |init| && init[k].VError?;
          assert xs[k] == init[k];
        }
      }
    }
  }

  lemma RecordsSnoc(xs: seq<Value>, i: nat)
    requires i < |xs|
    ensures Records(xs[..i + 1]) ==
      Records(xs[..i]) + (if xs[i].VError? then [xs[i].err] else [])
  {
    assert xs[..i + 1][..i] == xs[..i];
  }

  lemma RenderAllSnoc(es: seq<ErrorRecord>, e: ErrorRecord, src: Source, render: Renderer)
    ensures RenderAll(es + [e], src, render) ==
      if RenderAll(es, src, render).Some? && render(e, src).Some?
      then Some(RenderAll(es, src, render).value + [render(e, src).value])
      else None
  {
    assert (es + [e])[..|es|] == es;
  }

  /** Rendering fails as soon as an earlier part fails. */
  lemma {:induction false} RenderAllAppendNone(a: seq<ErrorRecord>, b: seq<ErrorRecord>, src: Source,
                                               render: Renderer)
    requires RenderAll(a, src, render).None?
    ensures RenderAll(a + b, src, render).None?
    decreases |b|
  {
    if b == [] {
      assert a + b == a;
    } else {
      assert (a + b)[..|a + b| - 1] == a + b[..|b| - 1];
      RenderAllAppendNone(a, b[..|b| - 1], src, render);
    }
  }

  /** One block per record. */
  lemma {:induction false} RenderAllLength(es: seq<ErrorRecord>, src: Source, render: Renderer)
    requires RenderAll(es, src, render).Some?
    ensures |RenderAll(es, src, render).value| == |es|
    decreases |es|
  {
    if es != [] {
      RenderAllLength(es[..|es| - 1], src, render);
    }
  }

  /** The k-th block is the block of the k-th record. */
  lemma {:induction false} RenderAllIndex(es: seq<ErrorRecord>, src: Source, render: Renderer, k: nat)
    requires RenderAll(es, src, render).Some? && k < |es|
    ensures k < |RenderAll(es, src, render).value|
    ensures render(es[k], src) == Some(RenderAll(es, src, render).value[k])
    decreases |es|
  {
    var init := es[..|es| - 1];
    RenderAllLength(init, src, render);
    if k < |init| {
      RenderAllIndex(init, src, render, k);
    }
  }

  /** A failed rendering has a record that fails. */
  lemma {:induction false} RenderAllFailsAt(es: seq<ErrorRecord>, src: Source, render: Renderer)
    returns (k: nat)
    requires RenderAll(es, src, render).None?
    ensures k < |es| && render(es[k], src).None?
    decreases |es|
  {
    var init := es[..|es| - 1];
    if RenderAll(init, src, render).None? {
      k := RenderAllFailsAt(init, src, render);
    } else {
      k := |es| - 1;
    }
  }

  /** The rendering fails exactly when a record fails, and otherwise lists
      the records' blocks in order. */
  lemma RenderAllAt(es: seq<ErrorRecord>, src: Source, render: Renderer)
    ensures RenderAll(es, src, render).Some? <==> forall k | 0 <= k < |es| :: render(es[k], src).Some?
    ensures RenderAll(es, src, render).Some? ==>
      |RenderAll(es, src, render).value| == |es| &&
      forall k | 0 <= k < |es| :: RenderAll(es, src, render).value[k] == render(es[k], src).value
  {
    if RenderAll(es, src, render).Some? {
      RenderAllLength(es, src, render);
      forall k | 0 <= k < |es|
        ensures render(es[k], src).Some?
        ensures RenderAll(es, src, render).value[k] == render(es[k], src).value
      {
        RenderAllIndex(es, src, render, k);
      }
    } else {
      var k := RenderAllFailsAt(es, src, render);
    }
  }

  /** A list without error records (the empty list included) is reported
      by the sentinel alone. */
  lemma NoRecordsReport(xs: seq<Value>, src: Source, render: Renderer)
    requires forall k | 0 <= k < |xs| :: !xs[k].VError?
    ensures ListReport(xs, src, render) == Some(NoErrors)
  {
    RecordsMembers(xs);
  }

  /** A list with error records is reported by the blocks of those records,
      in list order, with exactly one line break between consecutive blocks. */
  lemma ListJoining(xs: seq<Value>, src: Source, render: Renderer) returns (blocks: seq<string>)
    requires Records(xs) != []
    requires forall k | 0 <= k < |Records(xs)| :: render(Records(xs)[k], Prepared(src)).Some?
    ensures |blocks| == |Records(xs)|
    ensures forall k | 0 <= k < |blocks| :: blocks[k] == render(Records(xs)[k], Prepared(src)).value
    ensures ListReport(xs, src, render) == Some(Join(blocks, EOL))
  {
    RenderAllAt(Records(xs), Prepared(src), render);
    blocks := RenderAll(Records(xs), Prepared(src), render).value;
  }

  /** The report fails exactly when one of the list's records fails. */
  lemma ListFails(xs: seq<Value>, src: Source, render: Renderer)
    ensures ListReport(xs, src, render).None? <==>
      exists k | 0 <= k < |Records(xs)| :: render(Records(xs)[k], Prepared(src)).None?
  {
    var recs, lines := Records(xs), Prepared(src);
    RenderAllAt(recs, lines, render);
    if recs != [] && RenderAll(recs, lines, render).None? {
      var k :| 0 <= k < |recs| && render(recs[k], lines).None?;
    }
  }

  /** A text ends with a line break that follows a character `trim` keeps. */
  predicate ClosedByBreak(r: string) {
    |r| >= 2 && r[|r| - 1] == '\n' && !IsTrimChar(r[|r| - 2])
  }

  /** Joining keeps the ending of the last part. */
  lemma JoinClosedByBreak(bs: seq<string>, sep: string)
    requires bs != [] && ClosedByBreak(bs[|bs| - 1])
    ensures ClosedByBreak(Join(bs, sep))
  {
    var rep, last := Join(bs, sep), bs[|bs| - 1];
    JoinEndsWithLast(bs, sep);
    assert rep[|rep| - |last|..] == last;
    assert rep[|rep| - 1] == last[|last| - 1];
    assert rep[|rep| - 2] == last[|last| - 2];
  }

  /** For a renderer whose every block ends with a line break after a
      character `trim` keeps, the report ends that way too (the sentinel's
      `!` comes before its line break). */
  lemma ReportEndingFor(xs: seq<Value>, src: Source, render: Renderer)
    requires forall e :: render(e, Prepared(src)).Some? ==> ClosedByBreak(render(e, Prepared(src)).value)
    requires ListReport(xs, src, render).Some?
    ensures ClosedByBreak(ListReport(xs, src, render).value)
  {
    var recs, lines := Records(xs), Prepared(src);
    if recs != [] {
      RenderAllIndex(recs, lines, render, |recs| - 1);
      RenderAllLength(recs, lines, render);
      JoinClosedByBreak(RenderAll(recs, lines, render).value, EOL);
    } else {
      assert NoErrors[|NoErrors| - 2] == '!';
    }
  }

  /** Every block of `RenderError` ends with the rule's last dash and a line break. */
  lemma BlocksClosedByBreak(src: Source)
    ensures forall e :: RenderError(e, src).Some? ==> ClosedByBreak(RenderError(e, src).value)
  {
    forall e | RenderError(e, src).Some? ensures ClosedByBreak(RenderError(e, src).value) {
      BlockEnding(e, src);
    }
  }

  /** So the report of the list renderer with `RenderError` ends with a
      line break that follows a character `trim` keeps. */
  lemma ReportEnding(xs: seq<Value>, src: Source)
    requires ListReport(xs, src, RenderError).Some?
    ensures ClosedByBreak(ListReport(xs, src, RenderError).value)
  {
    BlocksClosedByBreak(Prepared(src));
    ReportEndingFor(xs, src, RenderError);
  }

  /** What the list renderer's accumulator holds after the first `i` entries. */
  predicate Reported(errors: seq<Value>, i: nat, src: Source, render: Renderer, result: string)
    requires i <= |errors|
  {
    var recs := Records(errors[..i]);
    RenderAll(recs, src, render).Some? &&
    result == Join(RenderAll(recs, src, render).value, EOL) &&
    (result == "" <==> recs == [])
  }

  lemma ReportedSkip(errors: seq<Value>, i: nat, src: Source, render: Renderer, result: string)
    requires i < |errors| && !errors[i].VError?
    requires Reported(errors, i, src, render, result)
    ensures Reported(errors, i + 1, src, render, result)
  {
    RecordsSnoc(errors, i);
    assert Records(errors[..i + 1]) == Records(errors[..i]) + [] == Records(errors[..i]);
  }

  /** The accumulator step on the blocks alone: a line break unless
      nothing was rendered yet, then the new block. */
  lemma AppendBlock(bs: seq<string>, result: string, block: string)
    requires result == Join(bs, EOL) && (bs != [] ==> result != "")
    requires block != ""
    ensures (if result != "" then result + EOL else result) + block == Join(bs + [block], EOL)
    ensures (if result != "" then result + EOL else result) + block != ""
  {
    if bs != [] {
      JoinSnoc(bs, block, EOL);
    } else {
      assert bs + [block] == [block];
    }
  }

  lemma ReportedAppend(errors: seq<Value>, i: nat, src: Source, render: Renderer, result: string,
                       block: string)
    requires i < |errors| && errors[i].VError?
    requires render(errors[i].err, src) == Some(block) && block != ""
    requires Reported(errors, i, src, render, result)
    ensures Reported(errors, i + 1, src, render, (if result != "" then result + EOL else result) + block)
  {
    var recs := Records(errors[..i]);
    RecordsSnoc(errors, i);
    RenderAllSnoc(recs, errors[i].err, src, render);
    AppendBlock(RenderAll(recs, src, render).value, result, block);
  }

  lemma ReportedFail(errors: seq<Value>, i: nat, src: Source, render: Renderer, result: string)
    requires i < |errors| && errors[i].VError?
    requires render(errors[i].err, Prepared(src)).None?
    requires Reported(errors, i, Prepared(src), render, result)
    ensures ListReport(errors, src, render).None?
  {
    var recs, lines := Records(errors[..i]), Prepared(src);
    RecordsSnoc(errors, i);
    RenderAllSnoc(recs, errors[i].err, lines, render);
    RecordsAppend(errors[..i + 1], errors[i + 1..]);
    assert errors[..i + 1] + errors[i + 1..] == errors;
    RenderAllAppendNone(Records(errors[..i + 1]), Records(errors[i + 1..]), lines, render);
  }

  lemma ReportedDone(errors: seq<Value>, src: Source, render: Renderer, result: string)
    requires Reported(errors, |errors|, Prepared(src), render, result)
    ensures ListReport(errors, src, render) == Some(if result == "" then NoErrors else result)
  {
    assert errors[..|errors|] == errors;
  }

  /** A text source and its lines give the same blocks. */
  lemma SplitSourceRenders(e: ErrorRecord, text: string)
    ensures RenderError(e, Lines(SplitLines(text))) == RenderError(e, Text(text))
  {
    assert LinesOf(Lines(SplitLines(text))) == LinesOf(Text(text));
  }

  /** `getLibXmlErrorsAsString`: splits a text source once, then appends the
      block of each error record, a line break between blocks, skipping
      entries that are not records. */
  method ErrorsAsString(errors: seq<Value>, xml: Source) returns (r: Option<string>)
    ensures r == ListReport(errors, xml, RenderError)
  {
    var src := xml;
    if xml.Text? {
      src := Lines(SplitLines(xml.text));
    }
    assert src == Prepared(xml);
    var result := "";
    var i := 0;
    while i < |errors|
      invariant 0 <= i <= |errors|
      invariant Reported(errors, i, src, RenderError, result)
    {
      var error := errors[i];
      if !error.VError? {
        ReportedSkip(errors, i, src, RenderError, result);
        i := i + 1;
        continue;
      }
      var block := RenderError(error.err, src);
      if block.None? {
        ReportedFail(errors, i, xml, RenderError, result);
        return None;
      }
      assert |block.value| >= |Footer|;
      ReportedAppend(errors, i, src, RenderError, result, block.value);
      if result != "" {
        result := result + EOL;
      }
      result := result + block.value;
      i := i + 1;
    }
    ReportedDone(errors, xml, RenderError, result);
    if result == "" {
      result := NoErrors;
    }
    r := Some(result);
  }

  // ---------------------------------------------------------------------
  // The failure message of parseXmlString
  // ---------------------------------------------------------------------

  /** The input as quoted in a failure message: itself when it has at most
      80 characters, else its first 65, `...`, and its last 12. */
  function Summary(data: string): string {
    if |data| > 80 then data[..65] + "..." + data[|data| - 12..] else data
  }

  lemma SummaryShape(data: string)
    ensures |Summary(data)| <= 80
    ensures Summary(data) == data <==> |data| <= 80
    ensures |data| > 80 ==>
      |Summary(data)| == 80 && data[..65] <= Summary(data) &&
      Summary(data)[65..68] == "..." && EndsWith(Summary(data), data[|data| - 12..])
  {
  }

  const FailurePrefix: string := "unable to parse xml string like `"
  const FailureInfix: string := "`, internal error(s):"

  function FailureMessage(data: string, report: string): string {
    Trim(FailurePrefix + Summary(data) + FailureInfix + EOL + EOL + report)
  }

  /** The `trim` around the failure message removes exactly the final line
      break of a report that ends like every report does. */
  lemma FailureMessageTrim(data: string, rep: string)
    requires ClosedByBreak(rep)
    ensures FailureMessage(data, rep) ==
      FailurePrefix + Summary(data) + FailureInfix + EOL + EOL + rep[..|rep| - 1]
  {
    var s := FailurePrefix + Summary(data) + FailureInfix + EOL + EOL + rep[..|rep| - 1];
    assert s[0] == FailurePrefix[0];
    assert s[|s| - 1] == rep[|rep| - 2];
    assert rep == rep[..|rep| - 1] + EOL;
    assert FailurePrefix + Summary(data) + FailureInfix + EOL + EOL + rep == s + EOL;
    TrimDropsFinalBreak(s);
  }

  /** So the message of the exception ends with the report less its final
      line break. */
  lemma FailureMessageShape(data: string, xs: seq<Value>, src: Source)
    requires ListReport(xs, src, RenderError).Some?
    ensures var rep := ListReport(xs, src, RenderError).value;
      EndsWith(rep, EOL) &&
      FailureMessage(data, rep) ==
        FailurePrefix + Summary(data) + FailureInfix + EOL + EOL + rep[..|rep| - 1]
  {
    var rep := ListReport(xs, src, RenderError).value;
    ReportEnding(xs, src);
    FailureMessageTrim(data, rep);
  }
}
