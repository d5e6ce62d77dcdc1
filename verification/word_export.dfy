/**
 * The Word export of `components/ExamDisplay.tsx` (`handleDownloadWord`):
 * the document title chosen by the work mode, the Markdown tables recognised
 * line by line (separator rows dropped, the first row a header) and the
 * paragraphs cut around `$…$` formulas.
 */
module WordExport {
  import opened Wrappers
  import opened Text
  import opened Request

  /** One table row: its trimmed cells and whether it is the header row. */
  datatype Row = Row(cells: seq<string>, header: bool)

  /** The blocks of the document, in order. */
  datatype Block =
    | Heading(text: string)
    | EmptyParagraph
    | Paragraph(runs: seq<string>)
    | Table(rows: seq<Row>)

  const LessonPlanTitle: string := "GIÁO ÁN PHÁT TRIỂN NĂNG LỰC SỐ (NLS)"
  const ExerciseTitle: string := "BÀI TẬP VÀ LỜI GIẢI CHI TIẾT"

  /** The heading: the lesson-plan title in lesson-plan mode, the exercise title otherwise. */
  function DocTitle(mode: WorkMode): (t: string)
    ensures mode == LessonPlan ==> t == LessonPlanTitle
    ensures mode != LessonPlan ==> t == ExerciseTitle
  {
    if mode == LessonPlan then LessonPlanTitle else ExerciseTitle
  }

  // ---------------------------------------------------------------- tables

  /** A trimmed line that belongs to a table: it starts and ends with `|`. */
  predicate IsTableLine(t: string) {
    StartsWith(t, "|") && EndsWith(t, "|")
  }

  /** `t.split('|').slice(1, -1).map(cell => cell.trim())`. */
  function RowCells(t: string): (cells: seq<string>)
    ensures var ps := Split(t, "|");
            && |cells| == (if |ps| >= 2 then |ps| - 2 else 0)
            && forall j :: 0 <= j < |cells| ==> cells[j] == Trim(ps[j + 1])
  {
    var ps := Split(t, "|");
    var inner := if |ps| >= 2 then ps[1..|ps| - 1] else [];
    seq(|inner|, j requires 0 <= j < |inner| => Trim(inner[j]))
  }

  /** `/^-+$/.test(cell.replace(/:/g, ''))`: dashes only, at least one, once colons are dropped. */
  predicate IsDashCell(cell: string): (b: bool)
    ensures b <==> '-' in cell && forall x :: x in cell ==> x == '-' || x == ':'
  {
    var d := RemoveChar(cell, ':');
    EveryCharIs(d, '-');
    assert |d| > 0 ==> d[0] in d;
    assert '-' in cell ==> '-' in d;
    |d| > 0 && forall x :: 0 <= x < |d| ==> d[x] == '-'
  }

  /** Every position holds `c` exactly when every member is `c`. */
  lemma EveryCharIs(d: string, c: char)
    ensures (forall x :: 0 <= x < |d| ==> d[x] == c) <==> (forall x :: x in d ==> x == c)
  {
    if forall x :: 0 <= x < |d| ==> d[x] == c {
      forall x | x in d ensures x == c {
        var i :| 0 <= i < |d| && d[i] == x;
      }
    } else {
      var i :| 0 <= i < |d| && d[i] != c;
      assert d[i] in d;
    }
  }

  /** A separator row such as `|---|:--:|`; a row without cells counts as one. */
  predicate IsSeparatorRow(cells: seq<string>): (b: bool)
    ensures b <==> && (forall j :: 0 <= j < |cells| ==> '-' in cells[j])
                   && (forall j, x :: 0 <= j < |cells| && x in cells[j] ==> x == '-' || x == ':')
  {
    forall j :: 0 <= j < |cells| ==> IsDashCell(cells[j])
  }

  /** A row added to the rows collected so far: a separator row is skipped,
      any other row is a header exactly when it is the first. */
  function AddRow(rows: seq<Row>, cells: seq<string>): (r: seq<Row>)
    ensures IsSeparatorRow(cells) ==> r == rows
    ensures !IsSeparatorRow(cells) ==>
              && |r| == |rows| + 1 && r[..|rows|] == rows
              && r[|rows|].cells == cells && (r[|rows|].header <==> rows == [])
  {
    if IsSeparatorRow(cells) then rows else rows + [Row(cells, |rows| == 0)]
  }

  /** Rows as a table shows them: the header flag exactly on the first row, no separator row. */
  predicate WellFormedRows(rows: seq<Row>) {
    forall j :: 0 <= j < |rows| ==> (rows[j].header <==> j == 0) && !IsSeparatorRow(rows[j].cells)
  }

  /** Adding a row keeps the collected rows well formed. */
  lemma AddRowWellFormed(rows: seq<Row>, cells: seq<string>)
    requires WellFormedRows(rows)
    ensures WellFormedRows(AddRow(rows, cells))
  {
  }

  // ------------------------------------------------------------ paragraphs

  /** `\$.*?\$` at `i`: a `$`, then the nearest `$` after it, with no line
      terminator in between (`.` does not cross one). The end of the match. */
  function MathSpanAt(s: string, i: nat): (r: Option<nat>)
    ensures r.Some? ==> i + 2 <= r.value <= |s| && IsMathSpan(s[i..r.value])
    ensures (i < |s| && s[i] == '$'
             && exists k :: i < k < |s| && s[k] == '$' && forall x :: i < x < k ==> s[x] != '$' && !IsLineTerminator(s[x]))
            ==> r.Some?
  {
    if i < |s| && s[i] == '$' then
      match FindChar(s, '$', i + 1)
      case Some(k) =>
        if forall x :: i < x < k ==> !IsLineTerminator(s[x]) then
          assert forall x :: i < x < k ==> s[i..k + 1][x - i] == s[x];
          Some(k + 1)
        else None
      case None => None
    else None
  }

  /** A formula span: `$`, then neither `$` nor a line terminator, then `$`. */
  predicate IsMathSpan(t: string) {
    && |t| >= 2 && t[0] == '$' && t[|t| - 1] == '$'
    && forall x :: 0 < x < |t| - 1 ==> t[x] != '$' && !IsLineTerminator(t[x])
  }

  /** Text pieces and formula spans alternating, starting and ending with text. */
  predicate Alternates(parts: seq<string>)
    decreases |parts|
  {
    |parts| == 1 || (|parts| >= 3 && IsMathSpan(parts[1]) && Alternates(parts[2..]))
  }

  /** `parts` lay over `s` from `off` as a global regex split cuts it: no match
      starts inside a text piece, and each formula piece is exactly the match
      found where it starts. */
  predicate LeftmostCuts(s: string, parts: seq<string>, off: nat)
    decreases |parts|
  {
    && |parts| >= 1 && off + |parts[0]| <= |s|
    && (forall x :: off <= x < off + |parts[0]| ==> MathSpanAt(s, x).None?)
    && (|parts| > 1 ==>
          var m := off + |parts[0]|;
          && |parts| >= 3 && MathSpanAt(s, m) == Some(m + |parts[1]|)
          && LeftmostCuts(s, parts[2..], m + |parts[1]|))
  }

  /** `s.split(/(\$.*?\$)/g)` from the piece starting at `p`, the scan at `q`:
      each match ends a text piece and is itself kept as a piece. */
  function SplitMathFrom(s: string, p: nat, q: nat): (r: seq<string>)
    requires p <= q <= |s|
    ensures Alternates(r)
    ensures Concat(r) == s[p..]
    decreases |s| - q
  {
    if q == |s| then
      assert [s[p..]][1..] == [];
      [s[p..]]
    else match MathSpanAt(s, q)
      case Some(e) =>
        var rest := SplitMathFrom(s, e, e);
        var r := [s[p..q], s[q..e]] + rest;
        assert r[2..] == rest && r[1..] == [s[q..e]] + rest;
        assert s[p..] == s[p..q] + s[q..e] + s[e..];
        r
      case None => SplitMathFrom(s, p, q + 1)
  }

  lemma CutAtMatch(s: string, p: nat, q: nat, e: nat, rest: seq<string>)
    requires p <= q < e <= |s| && MathSpanAt(s, q) == Some(e)
    requires forall x :: p <= x < q ==> MathSpanAt(s, x).None?
    requires LeftmostCuts(s, rest, e)
    ensures LeftmostCuts(s, [s[p..q], s[q..e]] + rest, p)
  {
    var r := [s[p..q], s[q..e]] + rest;
    assert r[2..] == rest;
  }

  /** The split cuts at the leftmost matches: it never passes over a match. */
  lemma {:induction false} SplitMathCutsLeftmost(s: string, p: nat, q: nat)
    requires p <= q <= |s|
    requires forall x :: p <= x < q ==> MathSpanAt(s, x).None?
    ensures LeftmostCuts(s, SplitMathFrom(s, p, q), p)
    decreases |s| - q
  {
    if q < |s| {
      match MathSpanAt(s, q)
      case Some(e) =>
        SplitMathCutsLeftmost(s, e, e);
        CutAtMatch(s, p, q, e, SplitMathFrom(s, e, e));
      case None =>
        SplitMathCutsLeftmost(s, p, q + 1);
    }
  }

  function SplitMath(s: string): seq<string> {
    SplitMathFrom(s, 0, 0)
  }

  /** Positions where no match starts do not change the split. */
  lemma {:induction false} SkipTextPiece(s: string, p: nat, q: nat, m: nat)
    requires p <= q <= m <= |s|
    requires forall x :: q <= x < m ==> MathSpanAt(s, x).None?
    ensures SplitMathFrom(s, p, q) == SplitMathFrom(s, p, m)
    decreases m - q
  {
    if q < m {
      SkipTextPiece(s, p, q + 1, m);
    }
  }

  lemma CutsAfterMatch(s: string, parts: seq<string>, off: nat)
    requires LeftmostCuts(s, parts, off) && |parts| > 1
    ensures var m := off + |parts[0]|;
            |parts| >= 3 && MathSpanAt(s, m) == Some(m + |parts[1]|) && LeftmostCuts(s, parts[2..], m + |parts[1]|)
  {
  }

  /** The first piece of a concatenation that spells out `s[off..]`, and the rest. */
  lemma ConcatFront(s: string, parts: seq<string>, off: nat)
    requires off <= |s| && |parts| >= 1 && Concat(parts) == s[off..]
    ensures off + |parts[0]| <= |s|
    ensures parts[0] == s[off..off + |parts[0]|] && Concat(parts[1..]) == s[off + |parts[0]|..]
  {
    assert Concat(parts) == parts[0] + Concat(parts[1..]);
    assert s[off..][..|parts[0]|] == s[off..off + |parts[0]|];
    assert s[off..][|parts[0]|..] == s[off + |parts[0]|..];
  }

  /** The cut is determined: any pieces that spell out `s[off..]` and are cut
      at the leftmost matches are the pieces the split makes. */
  lemma {:induction false} LeftmostCutsUnique(s: string, parts: seq<string>, off: nat)
    requires off <= |s| && LeftmostCuts(s, parts, off) && Concat(parts) == s[off..]
    ensures parts == SplitMathFrom(s, off, off)
    decreases |parts|
  {
    var m := off + |parts[0]|;
    SkipTextPiece(s, off, off, m);
    ConcatFront(s, parts, off);
    if |parts| == 1 {
      assert parts[1..] == [];
      assert m == |s| && s[off..m] == s[off..];
      assert parts == [parts[0]];
    } else {
      var tail := parts[1..];
      var e := m + |parts[1]|;
      assert tail[0] == parts[1] && tail[1..] == parts[2..];
      ConcatFront(s, tail, m);
      CutsAfterMatch(s, parts, off);
      LeftmostCutsUnique(s, parts[2..], e);
      assert parts == [s[off..m], s[m..e]] + parts[2..];
    }
  }

  predicate NonEmptyText(t: string) {
    t != ""
  }

  /** Dropping empty pieces does not change the text. */
  lemma {:induction false} ConcatDropsEmpty(parts: seq<string>)
    ensures Concat(Filter(NonEmptyText, parts)) == Concat(parts)
  {
    if |parts| > 0 {
      ConcatDropsEmpty(parts[1..]);
      if parts[0] != "" {
        var kept := Filter(NonEmptyText, parts[1..]);
        assert ([parts[0]] + kept)[1..] == kept;
      }
    }
  }

  /** `createParagraphsFromLine`: an empty paragraph for a blank line, otherwise
      the trimmed line as runs cut around formulas, empty runs dropped. */
  function ParagraphFor(line: string): (b: Block)
    ensures b.EmptyParagraph? || b.Paragraph?
    ensures Trim(line) == "" <==> b == EmptyParagraph
    ensures b.Paragraph? ==> forall j :: 0 <= j < |b.runs| ==> b.runs[j] != ""
  {
    var t := Trim(line);
    if t == "" then EmptyParagraph else Paragraph(Filter(NonEmptyText, SplitMath(t)))
  }

  /** A paragraph's runs spell out the trimmed line. */
  lemma ParagraphKeepsText(line: string)
    requires Trim(line) != ""
    ensures Concat(ParagraphFor(line).runs) == Trim(line)
  {
    ConcatDropsEmpty(SplitMath(Trim(line)));
  }

  lemma {:induction false} NoFormulaSplit(s: string, p: nat, q: nat)
    requires p <= q <= |s|
    requires '$' !in s
    ensures SplitMathFrom(s, p, q) == [s[p..]]
    decreases |s| - q
  {
    if q < |s| {
      assert MathSpanAt(s, q).None? by {
        assert s[q] != '$';
      }
      NoFormulaSplit(s, p, q + 1);
    }
  }

  /** The runs of a paragraph are the non-empty pieces of the trimmed line cut
      at its leftmost formula spans, whichever such cut is given. */
  lemma ParagraphCutsAtFormulas(line: string, parts: seq<string>)
    requires Trim(line) != ""
    requires LeftmostCuts(Trim(line), parts, 0) && Concat(parts) == Trim(line)
    ensures ParagraphFor(line) == Paragraph(Filter(NonEmptyText, parts))
  {
    LeftmostCutsUnique(Trim(line), parts, 0);
  }

  /** The paragraph's own split is such a cut. */
  lemma ParagraphSplitIsLeftmost(line: string)
    ensures LeftmostCuts(Trim(line), SplitMath(Trim(line)), 0) && Concat(SplitMath(Trim(line))) == Trim(line)
  {
    SplitMathCutsLeftmost(Trim(line), 0, 0);
  }

  /** A line without `$` is a single run: its trimmed text. */
  lemma NoFormulaOneRun(line: string)
    requires Trim(line) != "" && '$' !in Trim(line)
    ensures ParagraphFor(line) == Paragraph([Trim(line)])
  {
    NoFormulaSplit(Trim(line), 0, 0);
    assert Filter(NonEmptyText, [Trim(line)]) == [Trim(line)] by {
      assert [Trim(line)][1..] == [];
    }
  }

  // -------------------------------------------------------------- document

  /** How the export reads one line: a table line with its cells, or any other
      line with the paragraph it becomes. */
  datatype LineKind = TableLine(cells: seq<string>) | TextLine(paragraph: Block)

  function ReadLine(line: string): (k: LineKind)
    ensures k.TableLine? <==> IsTableLine(Trim(line))
    ensures k.TableLine? ==> k.cells == RowCells(Trim(line))
    ensures k.TextLine? ==> k.paragraph == ParagraphFor(line)
  {
    var t := Trim(line);
    if IsTableLine(t) then TableLine(RowCells(t)) else TextLine(ParagraphFor(line))
  }

  function ReadLines(lines: seq<string>): (ks: seq<LineKind>)
    ensures |ks| == |lines|
  {
    seq(|lines|, j requires 0 <= j < |lines| => ReadLine(lines[j]))
  }

  /** The number of leading table lines. */
  function TableRun(ks: seq<LineKind>): (n: nat)
    ensures n <= |ks|
    ensures forall j :: 0 <= j < n ==> ks[j].TableLine?
    ensures n < |ks| ==> ks[n].TextLine?
    decreases |ks|
  {
    if |ks| > 0 && ks[0].TableLine? then
      assert forall j :: 1 <= j < |ks| ==> ks[1..][j - 1] == ks[j];
      1 + TableRun(ks[1..])
    else 0
  }

  /** The rows collected from a run of table lines. */
  function AddRows(rows: seq<Row>, ks: seq<LineKind>): seq<Row>
    requires forall j :: 0 <= j < |ks| ==> ks[j].TableLine?
    decreases |ks|
  {
    if |ks| == 0 then rows else AddRows(AddRow(rows, ks[0].cells), ks[1..])
  }

  /** The blocks of a run of table lines whose first rows are already collected,
      and of everything after it: the table is emitted when another line ends it
      (even with no rows) and at the end only if it has rows. */
  function TableThen(rows: seq<Row>, ks: seq<LineKind>): seq<Block>
    decreases |ks|, 0
  {
    var n := TableRun(ks);
    var all := AddRows(rows, ks[..n]);
    if n == |ks| then (if |all| > 0 then [Table(all)] else [])
    else [Table(all), ks[n].paragraph] + Blocks(ks[n + 1..])
  }

  /** The reference reading of the document body: runs of table lines become
      tables, every other line its paragraph. */
  function Blocks(ks: seq<LineKind>): seq<Block>
    decreases |ks|, 1
  {
    if |ks| == 0 then []
    else if ks[0].TableLine? then TableThen([], ks)
    else [ks[0].paragraph] + Blocks(ks[1..])
  }

  /** Another table line extends the table being collected. */
  lemma TableThenStep(rows: seq<Row>, ks: seq<LineKind>)
    requires |ks| > 0 && ks[0].TableLine?
    ensures TableThen(rows, ks) == TableThen(AddRow(rows, ks[0].cells), ks[1..])
  {
    var n := TableRun(ks);
    assert TableRun(ks[1..]) == n - 1;
    assert ks[..n][1..] == ks[1..][..n - 1];
    if n < |ks| {
      assert ks[1..][n - 1] == ks[n];
      assert ks[1..][n..] == ks[n + 1..];
    }
  }

  /** Another line closes the table being collected. */
  lemma TableThenClose(rows: seq<Row>, ks: seq<LineKind>)
    requires |ks| > 0 && ks[0].TextLine?
    ensures TableThen(rows, ks) == [Table(rows), ks[0].paragraph] + Blocks(ks[1..])
  {
    assert TableRun(ks) == 0;
    assert ks[..0] == [];
  }

  /** At the end only a table with rows is still to be emitted. */
  lemma TableThenAtEnd(rows: seq<Row>)
    ensures TableThen(rows, []) == if |rows| > 0 then [Table(rows)] else []
  {
    assert TableRun([]) == 0;
    assert AddRows(rows, [][..0]) == rows;
  }

  /** What is still to be emitted, given the loop's table state. */
  function Pending(inTable: bool, rows: seq<Row>, ks: seq<LineKind>): seq<Block> {
    if inTable then TableThen(rows, ks) else Blocks(ks)
  }

  /** A table line: the table being collected (or a new one) takes its row. */
  lemma PendingTableLine(inTable: bool, rows: seq<Row>, ks: seq<LineKind>)
    requires |ks| > 0 && ks[0].TableLine?
    requires !inTable ==> rows == []
    ensures Pending(inTable, rows, ks) == Pending(true, AddRow(rows, ks[0].cells), ks[1..])
  {
    TableThenStep(rows, ks);
  }

  /** Any other line: the open table (if any), then the line's paragraph. */
  lemma PendingTextLine(inTable: bool, rows: seq<Row>, ks: seq<LineKind>)
    requires |ks| > 0 && ks[0].TextLine?
    ensures Pending(inTable, rows, ks)
            == (if inTable then [Table(rows), ks[0].paragraph] else [ks[0].paragraph]) + Pending(false, [], ks[1..])
  {
    if inTable {
      TableThenClose(rows, ks);
    }
  }

  lemma AppendAssoc(a: seq<Block>, b: seq<Block>, c: seq<Block>)
    ensures a + (b + c) == (a + b) + c
  {
  }

  /** The source's loop over the lines with its `inTable`/`tableRows` state,
      each line already read by `ReadLine`. */
  method BuildBlocks(ks: seq<LineKind>) returns (blocks: seq<Block>)
    ensures blocks == Blocks(ks)
  {
    blocks := [];
    var inTable := false;
    var rows: seq<Row> := [];
    var i := 0;
    while i < |ks|
      invariant 0 <= i <= |ks|
      invariant !inTable ==> rows == []
      invariant blocks + Pending(inTable, rows, ks[i..]) == Blocks(ks)
    {
      ghost var rest := ks[i..];
      assert rest[0] == ks[i] && rest[1..] == ks[i + 1..];
      match ks[i] {
        case TableLine(cells) =>
          PendingTableLine(inTable, rows, rest);
          if !inTable {
            inTable := true;
            rows := [];
          }
          if !IsSeparatorRow(cells) {
            rows := rows + [Row(cells, |rows| == 0)];
          }
        case TextLine(paragraph) =>
          var emitted := if inTable then [Table(rows), paragraph] else [paragraph];
          PendingTextLine(inTable, rows, rest);
          AppendAssoc(blocks, emitted, Pending(false, [], ks[i + 1..]));
          blocks := blocks + emitted;
          inTable := false;
          rows := [];
      }
      i := i + 1;
    }
    if inTable {
      TableThenAtEnd(rows);
    }
    if inTable && |rows| > 0 {
      blocks := blocks + [Table(rows)];
    }
  }

  /** `handleDownloadWord`: the centred title, then the blocks of the content's lines. */
  method BuildWordDocument(mode: WorkMode, content: string) returns (doc: seq<Block>)
    ensures |doc| >= 1 && doc[0] == Heading(DocTitle(mode))
    ensures doc[1..] == Blocks(ReadLines(Split(content, "\n")))
  {
    var lines := Split(content, "\n");
    var body := BuildBlocks(ReadLines(lines));
    doc := [Heading(DocTitle(mode))] + body;
  }

  // ------------------------------------------------------------ properties

  /** Every table of a block sequence has well-formed rows. */
  predicate TablesWellFormed(bs: seq<Block>) {
    forall j :: 0 <= j < |bs| && bs[j].Table? ==> WellFormedRows(bs[j].rows)
  }

  lemma TablesWellFormedAppend(a: seq<Block>, b: seq<Block>)
    requires TablesWellFormed(a) && TablesWellFormed(b)
    ensures TablesWellFormed(a + b)
  {
    assert forall j :: |a| <= j < |a + b| ==> (a + b)[j] == b[j - |a|];
  }

  lemma {:induction false} TableThenWellFormed(rows: seq<Row>, ks: seq<LineKind>)
    requires WellFormedRows(rows)
    requires forall j :: 0 <= j < |ks| && ks[j].TextLine? ==> !ks[j].paragraph.Table?
    ensures TablesWellFormed(TableThen(rows, ks))
    decreases |ks|, 0
  {
    if |ks| == 0 {
      TableThenAtEnd(rows);
    } else if ks[0].TableLine? {
      TableThenStep(rows, ks);
      AddRowWellFormed(rows, ks[0].cells);
      TableThenWellFormed(AddRow(rows, ks[0].cells), ks[1..]);
    } else {
      TableThenClose(rows, ks);
      BlocksWellFormed(ks[1..]);
      TablesWellFormedAppend([Table(rows), ks[0].paragraph], Blocks(ks[1..]));
    }
  }

  lemma {:induction false} BlocksWellFormed(ks: seq<LineKind>)
    requires forall j :: 0 <= j < |ks| && ks[j].TextLine? ==> !ks[j].paragraph.Table?
    ensures TablesWellFormed(Blocks(ks))
    decreases |ks|, 1
  {
    if |ks| > 0 {
      if ks[0].TableLine? {
        TableThenWellFormed([], ks);
      } else {
        BlocksWellFormed(ks[1..]);
        TablesWellFormedAppend([ks[0].paragraph], Blocks(ks[1..]));
      }
    }
  }

  /** The exported tables show a header row first and never a separator row. */
  lemma DocumentTablesWellFormed(lines: seq<string>)
    ensures TablesWellFormed(Blocks(ReadLines(lines)))
  {
    BlocksWellFormed(ReadLines(lines));
  }

  predicate IsTextBlock(b: Block) {
    !b.Table?
  }

  /** The reference reading of the text: the paragraph of each line that is
      not a table line, in order. */
  function TextParagraphs(ks: seq<LineKind>): seq<Block>
    decreases |ks|
  {
    if |ks| == 0 then []
    else (if ks[0].TableLine? then [] else [ks[0].paragraph]) + TextParagraphs(ks[1..])
  }

  lemma {:induction false} TableThenText(rows: seq<Row>, ks: seq<LineKind>)
    requires forall j :: 0 <= j < |ks| && ks[j].TextLine? ==> !ks[j].paragraph.Table?
    ensures Filter(IsTextBlock, TableThen(rows, ks)) == TextParagraphs(ks)
    decreases |ks|, 0
  {
    if |ks| == 0 {
      TableThenAtEnd(rows);
    } else if ks[0].TableLine? {
      TableThenStep(rows, ks);
      TableThenText(AddRow(rows, ks[0].cells), ks[1..]);
    } else {
      TableThenClose(rows, ks);
      BlocksText(ks[1..]);
      FilterAppend(IsTextBlock, [Table(rows), ks[0].paragraph], Blocks(ks[1..]));
      assert [Table(rows), ks[0].paragraph][1..] == [ks[0].paragraph];
    }
  }

  lemma {:induction false} BlocksText(ks: seq<LineKind>)
    requires forall j :: 0 <= j < |ks| && ks[j].TextLine? ==> !ks[j].paragraph.Table?
    ensures Filter(IsTextBlock, Blocks(ks)) == TextParagraphs(ks)
    decreases |ks|, 1
  {
    if |ks| > 0 {
      if ks[0].TableLine? {
        TableThenText([], ks);
      } else {
        BlocksText(ks[1..]);
        FilterAppend(IsTextBlock, [ks[0].paragraph], Blocks(ks[1..]));
      }
    }
  }

  /** Tables aside, the document is exactly one paragraph per line, in order:
      no line outside a table is lost, merged or reordered. */
  lemma DocumentText(lines: seq<string>)
    ensures Filter(IsTextBlock, Blocks(ReadLines(lines))) == TextParagraphs(ReadLines(lines))
  {
    BlocksText(ReadLines(lines));
  }

  /** The cells of each row, in order. */
  function CellsOf(rows: seq<Row>): (c: seq<seq<string>>)
    ensures |c| == |rows|
  {
    seq(|rows|, j requires 0 <= j < |rows| => rows[j].cells)
  }

  /** The rows of all tables of a block sequence, in order. */
  function TableRows(bs: seq<Block>): seq<seq<string>>
    decreases |bs|
  {
    if |bs| == 0 then []
    else (if bs[0].Table? then CellsOf(bs[0].rows) else []) + TableRows(bs[1..])
  }

  /** The reference reading of the tables: the cells of each table line that
      is not a separator row, in order. */
  function KeptRows(ks: seq<LineKind>): seq<seq<string>>
    decreases |ks|
  {
    if |ks| == 0 then []
    else (if ks[0].TableLine? && !IsSeparatorRow(ks[0].cells) then [ks[0].cells] else []) + KeptRows(ks[1..])
  }

  lemma {:induction false} TableRowsAppend(a: seq<Block>, b: seq<Block>)
    ensures TableRows(a + b) == TableRows(a) + TableRows(b)
    decreases |a|
  {
    if |a| == 0 {
      assert a + b == b;
    } else {
      assert (a + b)[1..] == a[1..] + b;
      TableRowsAppend(a[1..], b);
    }
  }

  lemma AddRowCells(rows: seq<Row>, cells: seq<string>)
    ensures CellsOf(AddRow(rows, cells)) == CellsOf(rows) + (if IsSeparatorRow(cells) then [] else [cells])
  {
  }

  lemma {:induction false} TableThenRows(rows: seq<Row>, ks: seq<LineKind>)
    requires forall j :: 0 <= j < |ks| && ks[j].TextLine? ==> !ks[j].paragraph.Table?
    ensures TableRows(TableThen(rows, ks)) == CellsOf(rows) + KeptRows(ks)
    decreases |ks|, 0
  {
    if |ks| == 0 {
      TableThenAtEnd(rows);
      assert TableRows([Table(rows)]) == CellsOf(rows) + TableRows([]);
    } else if ks[0].TableLine? {
      var next := AddRow(rows, ks[0].cells);
      TableThenStep(rows, ks);
      TableThenRows(next, ks[1..]);
      AddRowCells(rows, ks[0].cells);
    } else {
      TableThenClose(rows, ks);
      BlocksRows(ks[1..]);
      TableRowsAppend([Table(rows), ks[0].paragraph], Blocks(ks[1..]));
      assert [Table(rows), ks[0].paragraph][1..] == [ks[0].paragraph];
      assert [ks[0].paragraph][1..] == [];
    }
  }

  lemma {:induction false} BlocksRows(ks: seq<LineKind>)
    requires forall j :: 0 <= j < |ks| && ks[j].TextLine? ==> !ks[j].paragraph.Table?
    ensures TableRows(Blocks(ks)) == KeptRows(ks)
    decreases |ks|, 1
  {
    if |ks| > 0 {
      if ks[0].TableLine? {
        TableThenRows([], ks);
      } else {
        BlocksRows(ks[1..]);
        TableRowsAppend([ks[0].paragraph], Blocks(ks[1..]));
        assert [ks[0].paragraph][1..] == [];
      }
    }
  }

  /** The tables hold exactly the rows of the table lines, separator rows
      left out, in order: no row is lost, repeated or moved. */
  lemma DocumentRows(lines: seq<string>)
    ensures TableRows(Blocks(ReadLines(lines))) == KeptRows(ReadLines(lines))
  {
    BlocksRows(ReadLines(lines));
  }
}
