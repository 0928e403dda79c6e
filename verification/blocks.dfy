/** The block formatter (`FormattedText`): a report is split into lines, each
    trimmed line is classified, and a left-to-right pass turns the classes
    into blocks. Contiguous pipe-table lines are held back as pending rows and
    flushed as one table when a line of another kind, or the end of the
    report, is reached; a blank line becomes a line break unless nothing has
    been emitted yet or the last block is already a break. */
module Blocks {
  import opened Common
  import opened Text
  import opened Inline

  const EnDash: char := '\U{2013}'

  /** One rendered block. Text-bearing blocks hold the spans the inline
      highlighter makes of their text; a table holds its raw cells. */
  datatype Block =
    | Heading2(spans: seq<Span>)
    | Heading3(spans: seq<Span>)
    | ListItem(ordered: bool, spans: seq<Span>)
    | Paragraph(spans: seq<Span>)
    | LineBreak
    | Table(header: seq<string>, body: seq<seq<string>>)

  /** The blocks a non-table, non-blank line can become. */
  predicate IsText(b: Block) {
    b.Heading2? || b.ListItem? || b.Paragraph?
  }

  predicate IsTable(b: Block) {
    b.Table?
  }

  /** What one trimmed line contributes: a table row, a blank, or a block. */
  datatype Line = Row(cells: seq<string>) | Blank | Content(block: Block)

  // ------------------------------------------------------ classification

  /** `line.startsWith('|') && line.endsWith('|')`. */
  predicate IsTableLine(line: string) {
    |line| > 0 && line[0] == '|' && line[|line| - 1] == '|'
  }

  /** `line.slice(1, -1)`; a lone `|` slices to the empty string. */
  function Inner(line: string): (r: string)
    requires IsTableLine(line)
    ensures |line| >= 2 ==> line == ['|'] + r + ['|']
    ensures |line| < 2 ==> r == ""
  {
    if |line| >= 2 then line[1..|line| - 1] else ""
  }

  predicate IsHeading(line: string) {
    StartsWith(line, "##")
  }

  /** `line.startsWith('* ') || line.startsWith('– ')`. */
  predicate IsBullet(line: string) {
    StartsWith(line, "* ") || StartsWith(line, [EnDash, ' '])
  }

  /** Number of ASCII digits `s` starts with. */
  function LeadingDigits(s: string): (n: nat)
    ensures n <= |s|
    ensures forall i :: 0 <= i < n ==> IsDigit(s[i])
    ensures n == |s| || !IsDigit(s[n])
    decreases |s|
  {
    if |s| > 0 && IsDigit(s[0]) then 1 + LeadingDigits(s[1..]) else 0
  }

  /** Length of the prefix `^\d+\.\s` matches, if it does. The digits cannot
      give any back (a dot never is a digit), so the match, when there is
      one, is the whole digit run, the dot and one whitespace character. */
  function NumberedPrefix(line: string): (r: Option<nat>)
    ensures r.Some? ==> 3 <= r.value <= |line|
    ensures r.Some? ==> (forall i :: 0 <= i < r.value - 2 ==> IsDigit(line[i]))
                        && line[r.value - 2] == '.' && IsSpace(line[r.value - 1])
  {
    var d := LeadingDigits(line);
    if 0 < d && d + 1 < |line| && line[d] == '.' && IsSpace(line[d + 1]) then Some(d + 2)
    else None
  }

  /** A digit run stops at the first character that is not a digit. */
  lemma {:induction false} LeadingDigitsOf(d: string, t: string)
    requires forall i :: 0 <= i < |d| ==> IsDigit(d[i])
    requires |t| == 0 || !IsDigit(t[0])
    ensures LeadingDigits(d + t) == |d|
    decreases |d|
  {
    if |d| == 0 {
      assert d + t == t;
    } else {
      assert (d + t)[1..] == d[1..] + t;
      LeadingDigitsOf(d[1..], t);
    }
  }

  /** Digits, a dot and a whitespace character at the start of a line are
      always recognised as the number prefix, whatever follows. */
  lemma NumberedComplete(d: string, c: char, rest: string)
    requires 0 < |d| && forall i :: 0 <= i < |d| ==> IsDigit(d[i])
    requires IsSpace(c)
    ensures NumberedPrefix(d + "." + [c] + rest) == Some(|d| + 2)
  {
    var line := d + "." + [c] + rest;
    assert line == d + ("." + [c] + rest);
    LeadingDigitsOf(d, "." + [c] + rest);
    assert line[|d|] == '.' && line[|d| + 1] == c;
  }

  /** The decision made for one raw line: it is trimmed and classified. */
  function Classify(raw: string): (r: Line)
    ensures r.Row? <==> IsTableLine(Trim(raw))
    ensures r.Blank? <==> Trim(raw) == ""
    ensures r.Content? ==> IsText(r.block)
  {
    ClassifyLine(Trim(raw))
  }

  /** The tests on a trimmed line, in the source's order: table row, `##`,
      `###`, bullet, numbered item, blank, paragraph. The `###` test is
      reached only by lines that do not start with `##`, so it never
      fires. */
  function ClassifyLine(line: string): (r: Line)
    ensures r.Row? <==> IsTableLine(line)
    ensures r.Blank? <==> line == ""
    ensures r.Content? ==> IsText(r.block)
  {
    if IsTableLine(line) then
      Row(Split(Inner(line), '|'))
    else if IsHeading(line) then
      Content(Heading2(Tokenize(Trim(line[2..]))))
    else if StartsWith(line, "###") then
      // every `###` line was taken by the `##` test above
      NotHeadingNotTriple(line);
      assert false;
      Content(Heading3([]))
    else if IsBullet(line) then
      Content(ListItem(false, Tokenize(line[2..])))
    else if NumberedPrefix(line).Some? then
      Content(ListItem(true, Tokenize(line[NumberedPrefix(line).value..])))
    else if line == "" then
      Blank
    else
      Content(Paragraph(Tokenize(line)))
  }

  /** A table line's cells are the pieces between its pipes: none holds a
      pipe, and joined back with `|` they give the line without its outer
      pipes, so by `SplitJoin` they are exactly its split. */
  lemma ClassifyRow(line: string)
    requires IsTableLine(line)
    ensures ClassifyLine(line).Row?
    ensures |ClassifyLine(line).cells| > 0
    ensures forall k :: 0 <= k < |ClassifyLine(line).cells| ==> '|' !in ClassifyLine(line).cells[k]
    ensures Join(ClassifyLine(line).cells, '|') == Inner(line)
  {
    JoinSplit(Inner(line), '|');
  }

  /** A `##` line is a level-2 heading of the trimmed text after the marker. */
  lemma ClassifyHeading(line: string)
    requires !IsTableLine(line) && IsHeading(line)
    ensures ClassifyLine(line).Content? && ClassifyLine(line).block.Heading2?
    ensures ClassifyLine(line).block.spans == Tokenize(Trim(line[2..]))
    ensures Flatten(ClassifyLine(line).block.spans) == Trim(line[2..])
  {
  }

  /** A `* ` or `– ` line is an unordered item of the text after the marker. */
  lemma ClassifyBullet(line: string)
    requires !IsTableLine(line) && !IsHeading(line) && IsBullet(line)
    ensures ClassifyLine(line).Content? && ClassifyLine(line).block.ListItem?
    ensures !ClassifyLine(line).block.ordered
    ensures ClassifyLine(line).block.spans == Tokenize(line[2..])
    ensures Flatten(ClassifyLine(line).block.spans) == line[2..]
  {
  }

  /** A `1. ` line is an ordered item of the text after the number. */
  lemma ClassifyNumbered(line: string)
    requires !IsTableLine(line) && !IsHeading(line) && !IsBullet(line)
    requires NumberedPrefix(line).Some?
    ensures ClassifyLine(line).Content? && ClassifyLine(line).block.ListItem?
    ensures ClassifyLine(line).block.ordered
    ensures ClassifyLine(line).block.spans == Tokenize(line[NumberedPrefix(line).value..])
    ensures Flatten(ClassifyLine(line).block.spans) == line[NumberedPrefix(line).value..]
  {
  }

  /** Any other non-empty line is a paragraph of the whole line. */
  lemma ClassifyParagraph(line: string)
    requires !IsTableLine(line) && !IsHeading(line) && !IsBullet(line)
    requires NumberedPrefix(line).None? && line != ""
    ensures ClassifyLine(line) == Content(Paragraph(Tokenize(line)))
    ensures Flatten(ClassifyLine(line).block.spans) == line
  {
  }

  lemma NotHeadingNotTriple(line: string)
    requires !IsHeading(line)
    ensures !StartsWith(line, "###")
  {
    if |line| >= 3 {
      assert line[..3][..2] == line[..2];
    }
  }

  /** A line starting with `###` also starts with `##`, so it is taken as a
      level-2 heading whose text keeps the third `#`. */
  lemma TripleHashIsHeading2(raw: string)
    requires !IsTableLine(Trim(raw)) && StartsWith(Trim(raw), "###")
    ensures Classify(raw).Content? && Classify(raw).block.Heading2?
    ensures var t := Flatten(Classify(raw).block.spans); |t| > 0 && t[0] == '#'
  {
    var line := Trim(raw);
    assert line[..2] == "##" by { assert line[..2] == line[..3][..2]; }
    assert IsHeading(line);
    var rest := line[2..];
    assert rest[0] == '#';
    TrimUnchangedStart(rest);
  }

  /** Trimming text that starts with a non-space keeps that first character. */
  lemma TrimUnchangedStart(s: string)
    requires |s| > 0 && !IsSpace(s[0])
    ensures |Trim(s)| > 0 && Trim(s)[0] == s[0]
  {
    assert LeadingSpaces(s) == 0;
    assert s[0..0 + |Trim(s)|][0] == s[0];
  }

  // --------------------------------------------------------------- tables

  /** `row.join('').includes('---')`. */
  predicate HasRule(row: seq<string>) {
    Contains3(Concat(row), '-')
  }

  /** `cells.join('')`. */
  function Concat(cells: seq<string>): string
    decreases |cells|
  {
    if |cells| == 0 then "" else cells[0] + Concat(cells[1..])
  }

  /** `s` holds three consecutive `c`. */
  predicate Contains3(s: string, c: char) {
    exists k :: 0 <= k && k + 2 < |s| && s[k] == c && s[k + 1] == c && s[k + 2] == c
  }

  predicate IsBodyRow(row: seq<string>) {
    !HasRule(row)
  }

  /** `renderTable`: the first pending row is the header, as it is; the body
      is the other rows, in order, without those that contain `---`. */
  function MakeTable(rows: seq<seq<string>>): (r: Block)
    requires |rows| > 0
    ensures r.Table? && r.header == rows[0]
    ensures |r.body| <= |rows| - 1
    ensures IsSubsequence(r.body, rows[1..])
    ensures forall row :: row in r.body <==> row in rows[1..] && !HasRule(row)
    ensures forall row :: multiset(r.body)[row] == if HasRule(row) then 0 else multiset(rows[1..])[row]
  {
    FilterCount(IsBodyRow, rows[1..]);
    FilterIsSubsequence(IsBodyRow, rows[1..]);
    FilterMembers(IsBodyRow, rows[1..]);
    Table(rows[0], Filter(IsBodyRow, rows[1..]))
  }

  /** The cell text a table shows: `cell.trim()` run through the inline
      highlighter. */
  function CellSpans(cell: string): (r: seq<Span>)
    ensures Flatten(r) == Trim(cell)
  {
    Tokenize(Trim(cell))
  }

  // ------------------------------------------------------------- the pass

  /** The loop state: rows of the table being collected, blocks so far. */
  datatype State = State(rows: seq<seq<string>>, out: seq<Block>)

  /** Emit the pending table, if any. */
  function Flush(rows: seq<seq<string>>, out: seq<Block>): (r: seq<Block>)
    ensures |rows| == 0 ==> r == out
    ensures |rows| > 0 ==> |r| == |out| + 1 && r[..|out|] == out && r[|out|] == MakeTable(rows)
  {
    if |rows| == 0 then out else out + [MakeTable(rows)]
  }

  function Last(bs: seq<Block>): Block
    requires |bs| > 0
  {
    bs[|bs| - 1]
  }

  /** One iteration of the `for` loop. */
  function Step(st: State, l: Line): State {
    match l
    case Row(cells) => State(st.rows + [cells], st.out)
    case Blank =>
      var out := Flush(st.rows, st.out);
      State([], if |out| > 0 && !Last(out).LineBreak? then out + [LineBreak] else out)
    case Content(b) => State([], Flush(st.rows, st.out) + [b])
  }

  /** The state after the first `n` lines. */
  function Process(ls: seq<Line>, n: nat): State
    requires n <= |ls|
  {
    if n == 0 then State([], []) else Step(Process(ls, n - 1), ls[n - 1])
  }

  /** The loop followed by the final flush. */
  function FormatLines(ls: seq<Line>): seq<Block> {
    var st := Process(ls, |ls|);
    Flush(st.rows, st.out)
  }

  function ClassifyAll(lines: seq<string>): (r: seq<Line>)
    ensures |r| == |lines|
    ensures forall k :: 0 <= k < |lines| ==> r[k] == Classify(lines[k])
    ensures Classified(r)
  {
    seq(|lines|, k requires 0 <= k < |lines| => Classify(lines[k]))
  }

  /** `FormattedText`: the report split on `\n`, classified and formatted. */
  function Format(text: string): seq<Block> {
    FormatLines(ClassifyAll(Split(text, '\n')))
  }

  // ------------------------------------------------- reference definition

  /** The cells of the table lines that end just before `n`. */
  function RunCells(ls: seq<Line>, n: nat): (r: seq<seq<string>>)
    requires n <= |ls|
    ensures |r| <= n
    ensures forall k :: n - |r| <= k < n ==> ls[k].Row?
    ensures |r| < n ==> !ls[n - |r| - 1].Row?
  {
    if n == 0 || !ls[n - 1].Row? then [] else RunCells(ls, n - 1) + [ls[n - 1].cells]
  }

  /** Each line's block in order, a blank as a break and a maximal run of
      table lines as the one table it makes, before any collapsing. */
  function Grouped(ls: seq<Line>, n: nat): seq<Block>
    requires n <= |ls|
    decreases n
  {
    if n == 0 then []
    else
      match ls[n - 1]
      case Blank => Grouped(ls, n - 1) + [LineBreak]
      case Content(b) => Grouped(ls, n - 1) + [b]
      case Row(_) =>
        var run := RunCells(ls, n);
        Grouped(ls, n - |run|) + [MakeTable(run)]
  }

  /** A break survives unless it comes first or right after another break. */
  predicate Kept(bs: seq<Block>, i: nat)
    requires i < |bs|
  {
    !bs[i].LineBreak? || (i > 0 && !bs[i - 1].LineBreak?)
  }

  /** The blocks that survive, in order. */
  function Collapse(bs: seq<Block>): seq<Block>
    decreases |bs|
  {
    if |bs| == 0 then []
    else Collapse(bs[..|bs| - 1]) + (if Kept(bs, |bs| - 1) then [Last(bs)] else [])
  }

  /** No break first and no two breaks in a row. */
  predicate Collapsed(bs: seq<Block>) {
    && (|bs| > 0 ==> !bs[0].LineBreak?)
    && (forall i :: 0 < i < |bs| && bs[i].LineBreak? ==> !bs[i - 1].LineBreak?)
  }

  // ----------------------------------------------------- collapse lemmas

  lemma CollapseAppend(bs: seq<Block>, b: Block)
    ensures Collapse(bs + [b]) == Collapse(bs) + (if Kept(bs + [b], |bs|) then [b] else [])
  {
    assert (bs + [b])[..|bs|] == bs;
  }

  /** The collapsed sequence ends in a non-break exactly when the original
      does. */
  lemma {:induction false} CollapseEnds(bs: seq<Block>)
    ensures (|Collapse(bs)| > 0 && !Last(Collapse(bs)).LineBreak?)
        <==> (|bs| > 0 && !Last(bs).LineBreak?)
    decreases |bs|
  {
    if |bs| > 0 {
      var front := bs[..|bs| - 1];
      assert bs == front + [Last(bs)];
      CollapseAppend(front, Last(bs));
      CollapseEnds(front);
    }
  }

  lemma {:induction false} CollapseIsCollapsed(bs: seq<Block>)
    ensures Collapsed(Collapse(bs))
    decreases |bs|
  {
    if |bs| > 0 {
      var front := bs[..|bs| - 1];
      assert bs == front + [Last(bs)];
      CollapseAppend(front, Last(bs));
      CollapseIsCollapsed(front);
      CollapseEnds(front);
      var c := Collapse(front);
      if Kept(bs, |bs| - 1) {
        CollapsedSnoc(c, Last(bs));
      }
    }
  }

  lemma CollapsedSnoc(c: seq<Block>, b: Block)
    requires Collapsed(c)
    requires b.LineBreak? ==> |c| > 0 && !Last(c).LineBreak?
    ensures Collapsed(c + [b])
  {
    var r := c + [b];
    forall i | 0 < i < |r| && r[i].LineBreak? ensures !r[i - 1].LineBreak? {
      if i < |c| {
        assert r[i] == c[i] && r[i - 1] == c[i - 1];
      }
    }
  }

  // ------------------------------------------------ the pass is the reference

  /** Lines as `Classify` makes them: every content line carries a text
      block, so breaks come only from blanks and tables only from rows. */
  predicate Classified(ls: seq<Line>) {
    forall k :: 0 <= k < |ls| && ls[k].Content? ==> IsText(ls[k].block)
  }

  /** Flushing the pending run after the blocks before it is the grouped,
      collapsed form of everything so far. */
  lemma FlushGrouped(ls: seq<Line>, n: nat)
    requires n <= |ls|
    ensures Collapse(Grouped(ls, n))
         == Flush(RunCells(ls, n), Collapse(Grouped(ls, n - |RunCells(ls, n)|)))
  {
    if n > 0 && ls[n - 1].Row? {
      GroupedRun(ls, n);
      CollapseBlock(Grouped(ls, n - |RunCells(ls, n)|), MakeTable(RunCells(ls, n)));
    } else {
      assert RunCells(ls, n) == [];
    }
  }

  /** A run of table lines ending at `n` is grouped into one table. */
  lemma GroupedRun(ls: seq<Line>, n: nat)
    requires 0 < n <= |ls| && ls[n - 1].Row?
    ensures |RunCells(ls, n)| > 0
    ensures Grouped(ls, n)
         == Grouped(ls, n - |RunCells(ls, n)|) + [MakeTable(RunCells(ls, n))]
  {
  }

  /** The loop keeps the current run of table lines pending and has emitted
      the collapsed, grouped form of everything before it. */
  lemma {:induction false} ProcessInvariant(ls: seq<Line>, n: nat)
    requires n <= |ls| && Classified(ls)
    ensures Process(ls, n).rows == RunCells(ls, n)
    ensures Process(ls, n).out == Collapse(Grouped(ls, n - |RunCells(ls, n)|))
  {
    if n > 0 {
      ProcessInvariant(ls, n - 1);
      assert ls[n - 1].Content? ==> IsText(ls[n - 1].block);
      InvariantStep(ls, n);
    }
  }

  lemma InvariantStep(ls: seq<Line>, n: nat)
    requires 0 < n <= |ls|
    requires ls[n - 1].Content? ==> !ls[n - 1].block.LineBreak?
    requires Process(ls, n - 1).rows == RunCells(ls, n - 1)
    requires Process(ls, n - 1).out == Collapse(Grouped(ls, n - 1 - |RunCells(ls, n - 1)|))
    ensures Process(ls, n).rows == RunCells(ls, n)
    ensures Process(ls, n).out == Collapse(Grouped(ls, n - |RunCells(ls, n)|))
  {
    if ls[n - 1].Row? {
      RowStep(ls, n);
    } else {
      OtherStep(ls, n);
    }
  }

  /** A table line adds its cells to the pending run. */
  lemma RowStep(ls: seq<Line>, n: nat)
    requires 0 < n <= |ls| && ls[n - 1].Row?
    requires Process(ls, n - 1).rows == RunCells(ls, n - 1)
    requires Process(ls, n - 1).out == Collapse(Grouped(ls, n - 1 - |RunCells(ls, n - 1)|))
    ensures Process(ls, n).rows == RunCells(ls, n)
    ensures Process(ls, n).out == Collapse(Grouped(ls, n - |RunCells(ls, n)|))
  {
    assert RunCells(ls, n) == RunCells(ls, n - 1) + [ls[n - 1].cells];
  }

  /** Any other line flushes the run and then adds its own block, a blank
      adding its break only where it survives the collapse. */
  lemma OtherStep(ls: seq<Line>, n: nat)
    requires 0 < n <= |ls| && !ls[n - 1].Row?
    requires ls[n - 1].Content? ==> !ls[n - 1].block.LineBreak?
    requires Process(ls, n - 1).rows == RunCells(ls, n - 1)
    requires Process(ls, n - 1).out == Collapse(Grouped(ls, n - 1 - |RunCells(ls, n - 1)|))
    ensures Process(ls, n).rows == RunCells(ls, n)
    ensures Process(ls, n).out == Collapse(Grouped(ls, n - |RunCells(ls, n)|))
  {
    PendingFlushed(ls, n - 1);
    if ls[n - 1].Blank? {
      BlankStep(ls, n);
    } else {
      ContentStep(ls, n);
    }
  }

  /** Flushing the loop state gives the collapsed, grouped prefix. */
  lemma PendingFlushed(ls: seq<Line>, n: nat)
    requires n <= |ls|
    requires Process(ls, n).rows == RunCells(ls, n)
    requires Process(ls, n).out == Collapse(Grouped(ls, n - |RunCells(ls, n)|))
    ensures Flush(Process(ls, n).rows, Process(ls, n).out) == Collapse(Grouped(ls, n))
  {
    FlushGrouped(ls, n);
  }

  lemma BlankStep(ls: seq<Line>, n: nat)
    requires 0 < n <= |ls| && ls[n - 1].Blank?
    requires Flush(Process(ls, n - 1).rows, Process(ls, n - 1).out) == Collapse(Grouped(ls, n - 1))
    ensures Process(ls, n).rows == RunCells(ls, n)
    ensures Process(ls, n).out == Collapse(Grouped(ls, n - |RunCells(ls, n)|))
  {
    NotRowEnds(ls, n);
    GroupedLast(ls, n);
    CollapseBreak(Grouped(ls, n - 1));
  }

  lemma ContentStep(ls: seq<Line>, n: nat)
    requires 0 < n <= |ls| && ls[n - 1].Content? && !ls[n - 1].block.LineBreak?
    requires Flush(Process(ls, n - 1).rows, Process(ls, n - 1).out) == Collapse(Grouped(ls, n - 1))
    ensures Process(ls, n).rows == RunCells(ls, n)
    ensures Process(ls, n).out == Collapse(Grouped(ls, n - |RunCells(ls, n)|))
  {
    NotRowEnds(ls, n);
    GroupedLast(ls, n);
    CollapseBlock(Grouped(ls, n - 1), ls[n - 1].block);
  }

  /** A line that is not a table row ends the pending run. */
  lemma NotRowEnds(ls: seq<Line>, n: nat)
    requires 0 < n <= |ls| && !ls[n - 1].Row?
    ensures RunCells(ls, n) == []
    ensures n - |RunCells(ls, n)| == n
  {
  }

  /** A line that is not a table row adds its own block to the grouping. */
  lemma GroupedLast(ls: seq<Line>, n: nat)
    requires 0 < n <= |ls| && !ls[n - 1].Row?
    ensures Grouped(ls, n)
         == Grouped(ls, n - 1) + [if ls[n - 1].Blank? then LineBreak else ls[n - 1].block]
  {
  }

  /** A break is kept after a non-break and dropped otherwise. */
  lemma CollapseBreak(g: seq<Block>)
    ensures var c := Collapse(g);
            Collapse(g + [LineBreak])
            == if |c| > 0 && !Last(c).LineBreak? then c + [LineBreak] else c
  {
    CollapseAppend(g, LineBreak);
    CollapseEnds(g);
  }

  /** Any other block is always kept. */
  lemma CollapseBlock(g: seq<Block>, b: Block)
    requires !b.LineBreak?
    ensures Collapse(g + [b]) == Collapse(g) + [b]
  {
    CollapseAppend(g, b);
  }

  /** The formatter's output is the grouped, collapsed reference. */
  lemma FormatIsReference(ls: seq<Line>)
    requires Classified(ls)
    ensures FormatLines(ls) == Collapse(Grouped(ls, |ls|))
  {
    ProcessInvariant(ls, |ls|);
    FlushGrouped(ls, |ls|);
    var st := Process(ls, |ls|);
    assert FormatLines(ls) == Flush(st.rows, st.out);
  }

  /** The formatted report never starts with a break and never has two in a
      row. */
  lemma FormatCollapsed(text: string)
    ensures Collapsed(Format(text))
  {
    var ls := ClassifyAll(Split(text, '\n'));
    FormatIsReference(ls);
    CollapseIsCollapsed(Grouped(ls, |ls|));
  }

  // ------------------------------------------------------ what survives

  /** Collapsing removes breaks only: any selection of blocks that excludes
      breaks is the same before and after. */
  lemma {:induction false} CollapseFilter(keep: Block -> bool, bs: seq<Block>)
    requires !keep(LineBreak)
    ensures Filter(keep, Collapse(bs)) == Filter(keep, bs)
    decreases |bs|
  {
    if |bs| > 0 {
      var front := bs[..|bs| - 1];
      var b := Last(bs);
      assert bs == front + [b];
      CollapseAppend(front, b);
      CollapseFilter(keep, front);
      FilterAppend(keep, front, [b]);
      FilterAppend(keep, Collapse(front), if Kept(bs, |bs| - 1) then [b] else []);
      if !Kept(bs, |bs| - 1) {
        assert Filter(keep, [b]) == [];
      }
    }
  }

  /** Collapsing adds nothing. */
  lemma {:induction false} CollapseMembers(bs: seq<Block>)
    ensures forall x :: x in Collapse(bs) ==> x in bs
    decreases |bs|
  {
    if |bs| > 0 {
      var front := bs[..|bs| - 1];
      assert bs == front + [Last(bs)];
      CollapseAppend(front, Last(bs));
      CollapseMembers(front);
    }
  }

  /** The text blocks of the content lines, in order. */
  function ContentBlocks(ls: seq<Line>, n: nat): seq<Block>
    requires n <= |ls|
  {
    if n == 0 then []
    else ContentBlocks(ls, n - 1) + (if ls[n - 1].Content? then [ls[n - 1].block] else [])
  }

  /** Number of maximal runs of table lines among the first `n` lines. */
  function RunStarts(ls: seq<Line>, n: nat): nat
    requires n <= |ls|
  {
    if n == 0 then 0
    else RunStarts(ls, n - 1) + (if ls[n - 1].Row? && (n == 1 || !ls[n - 2].Row?) then 1 else 0)
  }

  /** Grouping keeps every content line's block, in order. */
  lemma {:induction false} GroupedText(ls: seq<Line>, n: nat)
    requires n <= |ls| && Classified(ls)
    ensures Filter(IsText, Grouped(ls, n)) == ContentBlocks(ls, n)
    decreases n
  {
    if n > 0 {
      if ls[n - 1].Row? {
        GroupedRun(ls, n);
        GroupedText(ls, n - |RunCells(ls, n)|);
        TextRunStep(ls, n);
      } else {
        GroupedText(ls, n - 1);
        assert ls[n - 1].Content? ==> IsText(ls[n - 1].block);
        TextLineStep(ls, n);
      }
    }
  }

  lemma TextRunStep(ls: seq<Line>, n: nat)
    requires 0 < n <= |ls| && ls[n - 1].Row?
    requires Filter(IsText, Grouped(ls, n - |RunCells(ls, n)|))
          == ContentBlocks(ls, n - |RunCells(ls, n)|)
    ensures Filter(IsText, Grouped(ls, n)) == ContentBlocks(ls, n)
  {
    var m := n - |RunCells(ls, n)|;
    GroupedRun(ls, n);
    FilterAppend(IsText, Grouped(ls, m), [MakeTable(RunCells(ls, n))]);
    NoContentInRun(ls, m, n);
  }

  lemma TextLineStep(ls: seq<Line>, n: nat)
    requires 0 < n <= |ls| && !ls[n - 1].Row?
    requires ls[n - 1].Content? ==> IsText(ls[n - 1].block)
    requires Filter(IsText, Grouped(ls, n - 1)) == ContentBlocks(ls, n - 1)
    ensures Filter(IsText, Grouped(ls, n)) == ContentBlocks(ls, n)
  {
    GroupedLast(ls, n);
    var x := if ls[n - 1].Blank? then LineBreak else ls[n - 1].block;
    FilterAppend(IsText, Grouped(ls, n - 1), [x]);
  }

  /** A run of table lines contributes no content blocks. */
  lemma {:induction false} NoContentInRun(ls: seq<Line>, m: nat, n: nat)
    requires m <= n <= |ls|
    requires forall k :: m <= k < n ==> ls[k].Row?
    ensures ContentBlocks(ls, n) == ContentBlocks(ls, m)
    decreases n
  {
    if n > m {
      NoContentInRun(ls, m, n - 1);
    }
  }

  /** Grouping makes one table per maximal run of table lines. */
  lemma {:induction false} GroupedTables(ls: seq<Line>, n: nat)
    requires n <= |ls| && Classified(ls)
    ensures |Filter(IsTable, Grouped(ls, n))| == RunStarts(ls, n)
    decreases n
  {
    if n > 0 {
      if ls[n - 1].Row? {
        GroupedRun(ls, n);
        GroupedTables(ls, n - |RunCells(ls, n)|);
        TableRunStep(ls, n);
      } else {
        GroupedTables(ls, n - 1);
        assert ls[n - 1].Content? ==> IsText(ls[n - 1].block);
        TableLineStep(ls, n);
      }
    }
  }

  lemma TableRunStep(ls: seq<Line>, n: nat)
    requires 0 < n <= |ls| && ls[n - 1].Row?
    requires |Filter(IsTable, Grouped(ls, n - |RunCells(ls, n)|))|
          == RunStarts(ls, n - |RunCells(ls, n)|)
    ensures |Filter(IsTable, Grouped(ls, n))| == RunStarts(ls, n)
  {
    var m := n - |RunCells(ls, n)|;
    GroupedRun(ls, n);
    FilterAppend(IsTable, Grouped(ls, m), [MakeTable(RunCells(ls, n))]);
    RunStartsRun(ls, m, n);
  }

  lemma TableLineStep(ls: seq<Line>, n: nat)
    requires 0 < n <= |ls| && !ls[n - 1].Row?
    requires ls[n - 1].Content? ==> IsText(ls[n - 1].block)
    requires |Filter(IsTable, Grouped(ls, n - 1))| == RunStarts(ls, n - 1)
    ensures |Filter(IsTable, Grouped(ls, n))| == RunStarts(ls, n)
  {
    GroupedLast(ls, n);
    var x := if ls[n - 1].Blank? then LineBreak else ls[n - 1].block;
    FilterAppend(IsTable, Grouped(ls, n - 1), [x]);
  }

  /** A maximal run of table lines from `m` to `n` starts exactly one run. */
  lemma {:induction false} RunStartsRun(ls: seq<Line>, m: nat, n: nat)
    requires m < n <= |ls|
    requires forall k :: m <= k < n ==> ls[k].Row?
    requires m == 0 || !ls[m - 1].Row?
    ensures RunStarts(ls, n) == RunStarts(ls, m) + 1
    decreases n
  {
    if n > m + 1 {
      RunStartsRun(ls, m, n - 1);
    }
  }

  /** Grouping yields breaks, tables and the text blocks of content lines
      only. */
  lemma {:induction false} GroupedKinds(ls: seq<Line>, n: nat)
    requires n <= |ls| && Classified(ls)
    ensures forall x :: x in Grouped(ls, n) ==> x.LineBreak? || x.Table? || IsText(x)
    decreases n
  {
    if n > 0 {
      if ls[n - 1].Row? {
        GroupedRun(ls, n);
        GroupedKinds(ls, n - |RunCells(ls, n)|);
      } else {
        GroupedLast(ls, n);
        GroupedKinds(ls, n - 1);
      }
    }
  }

  /** The content lines' blocks all appear, in order, and nothing is said
      about them twice: the text blocks of the output are exactly those. */
  lemma FormatKeepsText(text: string)
    ensures var ls := ClassifyAll(Split(text, '\n'));
            Filter(IsText, Format(text)) == ContentBlocks(ls, |ls|)
  {
    var ls := ClassifyAll(Split(text, '\n'));
    FormatIsReference(ls);
    CollapseFilter(IsText, Grouped(ls, |ls|));
    GroupedText(ls, |ls|);
  }

  /** One table per maximal run of table lines; in particular a report
      without table lines renders no table. */
  lemma FormatTables(text: string)
    ensures var ls := ClassifyAll(Split(text, '\n'));
            |Filter(IsTable, Format(text))| == RunStarts(ls, |ls|)
  {
    var ls := ClassifyAll(Split(text, '\n'));
    FormatIsReference(ls);
    CollapseFilter(IsTable, Grouped(ls, |ls|));
    GroupedTables(ls, |ls|);
  }

  /** The `###` branch never fires: no level-3 heading is ever rendered. */
  lemma FormatNoHeading3(text: string)
    ensures forall b :: b in Format(text) ==> !b.Heading3?
  {
    var ls := ClassifyAll(Split(text, '\n'));
    FormatIsReference(ls);
    CollapsedKinds(ls);
  }

  lemma CollapsedKinds(ls: seq<Line>)
    requires Classified(ls)
    ensures forall b :: b in Collapse(Grouped(ls, |ls|)) ==> !b.Heading3?
  {
    CollapseMembers(Grouped(ls, |ls|));
    GroupedKinds(ls, |ls|);
  }
}
