/** Block extraction (`handleUnfinishedTodosWithBlocks`): a line-by-line
    state machine that skips a leading frontmatter, opens a region at each
    unfinished todo line and lets it absorb the deeper-indented and
    whitespace-only lines that follow.

    `ExtractBlocks` is the loop of the source as a fold over the lines with
    an explicit state record.  `BlockRegions` is an independent description
    of the same result by segmentation: find a todo line, take the maximal
    run of lines it absorbs, close, repeat.  `ExtractBlocksIsSegmentation`
    proves the two agree on every text. */
module BlockExtract {
  import opened Wrappers
  import opened JsText
  import opened TodoPattern

  /** Where the loop is with respect to the frontmatter: at line 0 (the
      only line that may open it), inside it, or past it. */
  datatype Phase = FirstLine | InFrontmatter | Body

  /** The open region: `curTodo` and `curLevel`. */
  datatype Block = Block(text: string, level: nat)

  /** The loop's state: phase, open region (`undefined` as `None`) and the
      regions pushed so far (`todos`). */
  datatype Scan = Scan(phase: Phase, open: Option<Block>, found: seq<string>)

  /** What an absorbed line adds to the open region: a whitespace-only line
      adds itself without a newline, any other line itself and a newline. */
  function Piece(line: string): string {
    if IsBlankLine(line) then line else line + "\n"
  }

  /** A region opened at `level` absorbs `line`. */
  predicate Absorbs(level: nat, line: string) {
    Indent(line) > level || IsBlankLine(line)
  }

  /** The region a line opens, if it is a todo line. */
  function OpenAt(line: string): Option<Block> {
    if IsTodoLine(line) then Some(Block(line + "\n", Indent(line))) else None
  }

  /** One iteration of the loop past the frontmatter. */
  function BodyStep(open: Option<Block>, found: seq<string>, line: string): Scan {
    match open
    case Some(b) =>
      if Absorbs(b.level, line) then Scan(Body, Some(Block(b.text + Piece(line), b.level)), found)
      else Scan(Body, OpenAt(line), found + [TrimEnd(b.text)])
    case None => Scan(Body, OpenAt(line), found)
  }

  /** One iteration of the loop. */
  function Step(st: Scan, line: string): Scan {
    match st.phase
    case FirstLine =>
      if IsFrontmatterDelimiter(line) then Scan(InFrontmatter, None, [])
      else BodyStep(st.open, st.found, line)
    case InFrontmatter =>
      if IsFrontmatterDelimiter(line) then st.(phase := Body) else st
    case Body => BodyStep(st.open, st.found, line)
  }

  /** The loop over the remaining lines. */
  function Run(st: Scan, lines: seq<string>): Scan
    decreases |lines|
  {
    if lines == [] then st else Run(Step(st, lines[0]), lines[1..])
  }

  /** After the loop: a region still open is pushed without trimming. */
  function Finish(st: Scan): seq<string> {
    match st.open
    case Some(b) => st.found + [b.text]
    case None => st.found
  }

  /** `handleUnfinishedTodosWithBlocks` on the note text. */
  function ExtractBlocks(content: string): seq<string> {
    Finish(Run(Scan(FirstLine, None, []), Lines(content)))
  }

  // ---------------------------------------------------------------------
  // The segmentation reference

  /** How many of the leading `lines` a region opened at `level` absorbs:
      the maximal run of absorbed lines. */
  function AbsorbedRun(level: nat, lines: seq<string>): (n: nat)
    ensures n <= |lines|
    ensures forall i :: 0 <= i < n ==> Absorbs(level, lines[i])
    ensures n < |lines| ==> !Absorbs(level, lines[n])
  {
    if lines == [] || !Absorbs(level, lines[0]) then 0
    else 1 + AbsorbedRun(level, lines[1..])
  }

  /** The text the absorbed lines add to a region. */
  function Glue(lines: seq<string>): string {
    if lines == [] then [] else Piece(lines[0]) + Glue(lines[1..])
  }

  /** The regions of `lines` when a region with text `text` at `level` is
      open: it takes the absorbed run; it is pushed untrimmed when the run
      reaches the end, and trimmed otherwise, the boundary line being
      examined afresh. */
  function SegmentOpen(text: string, level: nat, lines: seq<string>): seq<string>
    decreases |lines|, 1
  {
    var n := AbsorbedRun(level, lines);
    var full := text + Glue(lines[..n]);
    if n == |lines| then [full] else [TrimEnd(full)] + Segment(lines[n..])
  }

  /** The regions of `lines` when no region is open. */
  function Segment(lines: seq<string>): seq<string>
    decreases |lines|, 0
  {
    if lines == [] then []
    else if IsTodoLine(lines[0]) then SegmentOpen(lines[0] + "\n", Indent(lines[0]), lines[1..])
    else Segment(lines[1..])
  }

  /** The index of the first frontmatter delimiter among `lines`. */
  function FirstDelimiter(lines: seq<string>): (r: Option<nat>)
    ensures r.Some? ==> r.value < |lines| && IsFrontmatterDelimiter(lines[r.value])
    ensures r.Some? ==> forall i :: 0 <= i < r.value ==> !IsFrontmatterDelimiter(lines[i])
    ensures r.None? ==> forall i :: 0 <= i < |lines| ==> !IsFrontmatterDelimiter(lines[i])
  {
    if lines == [] then None
    else if IsFrontmatterDelimiter(lines[0]) then Some(0)
    else match FirstDelimiter(lines[1..])
      case Some(j) => Some(j + 1)
      case None => None
  }

  /** The regions of a note by segmentation: a first line that is a
      delimiter opens a frontmatter that runs to the next delimiter; nothing
      in it counts, and when it is never closed nothing is found at all. */
  function BlockRegions(content: string): seq<string> {
    var lines := Lines(content);
    if IsFrontmatterDelimiter(lines[0]) then
      match FirstDelimiter(lines[1..])
      case None => []
      case Some(j) => Segment(lines[j + 2..])
    else Segment(lines)
  }

  // ---------------------------------------------------------------------
  // The loop computes the segmentation

  lemma AbsorbStep(text: string, level: nat, lines: seq<string>)
    requires lines != [] && Absorbs(level, lines[0])
    ensures SegmentOpen(text, level, lines) == SegmentOpen(text + Piece(lines[0]), level, lines[1..])
  {
    var n := AbsorbedRun(level, lines);
    var n' := AbsorbedRun(level, lines[1..]);
    assert n == n' + 1;
    assert lines[..n] == [lines[0]] + lines[1..][..n'];
    assert Glue(lines[..n]) == Piece(lines[0]) + Glue(lines[1..][..n']);
    assert text + Glue(lines[..n]) == (text + Piece(lines[0])) + Glue(lines[1..][..n']);
    assert lines[n..] == lines[1..][n'..];
    assert n == |lines| <==> n' == |lines[1..]|;
  }

  lemma BoundaryStep(text: string, level: nat, lines: seq<string>)
    requires lines != [] && !Absorbs(level, lines[0])
    ensures SegmentOpen(text, level, lines) == [TrimEnd(text)] + Segment(lines)
  {
    assert AbsorbedRun(level, lines) == 0;
    assert lines[..0] == [];
    assert Glue(lines[..0]) == [];
    assert text + Glue(lines[..0]) == text;
    assert lines[0..] == lines;
  }

  lemma OpenStep(lines: seq<string>)
    requires lines != []
    ensures Segment(lines) == match OpenAt(lines[0])
                              case None => Segment(lines[1..])
                              case Some(b) => SegmentOpen(b.text, b.level, lines[1..])
  {
  }

  /** The regions still to come when `open` is the open region and `lines`
      are the lines left. */
  function Pending(open: Option<Block>, lines: seq<string>): seq<string> {
    match open
    case None => Segment(lines)
    case Some(b) => SegmentOpen(b.text, b.level, lines)
  }

  /** One loop iteration moves a line from the pending lines into the
      state without changing what will be found in the end. */
  lemma BodyStepKeepsPending(open: Option<Block>, found: seq<string>, lines: seq<string>)
    requires lines != []
    ensures var next := BodyStep(open, found, lines[0]);
            found + Pending(open, lines) == next.found + Pending(next.open, lines[1..])
  {
    OpenStep(lines);
    match open
    case None =>
    case Some(b) =>
      if Absorbs(b.level, lines[0]) {
        AbsorbStep(b.text, b.level, lines);
      } else {
        BoundaryStep(b.text, b.level, lines);
      }
  }

  /** Past the frontmatter, the loop computes the segmentation, whatever
      region is open and whatever was pushed before. */
  lemma {:induction false} RunBodyIsSegmentation(open: Option<Block>, found: seq<string>, lines: seq<string>)
    ensures Finish(Run(Scan(Body, open, found), lines)) == found + Pending(open, lines)
    decreases |lines|
  {
    if lines == [] {
      match open
      case None =>
      case Some(b) =>
        assert lines[..0] == [];
        assert b.text + Glue(lines[..0]) == b.text;
    } else {
      var next := BodyStep(open, found, lines[0]);
      assert Run(Scan(Body, open, found), lines) == Run(next, lines[1..]);
      RunBodyIsSegmentation(next.open, next.found, lines[1..]);
      BodyStepKeepsPending(open, found, lines);
    }
  }

  /** Inside the frontmatter the loop skips to the closing delimiter; if
      there is none, it stays there with nothing found. */
  lemma {:induction false} RunFrontmatter(lines: seq<string>)
    ensures Run(Scan(InFrontmatter, None, []), lines) ==
            match FirstDelimiter(lines)
            case None => Scan(InFrontmatter, None, [])
            case Some(j) => Run(Scan(Body, None, []), lines[j + 1..])
    decreases |lines|
  {
    if lines != [] {
      RunFrontmatter(lines[1..]);
      if !IsFrontmatterDelimiter(lines[0]) {
        match FirstDelimiter(lines[1..])
        case None =>
        case Some(j) => assert lines[1..][j + 1..] == lines[j + 2..];
      }
    }
  }

  /** The loop of the source and the segmentation agree on every note. */
  lemma ExtractBlocksIsSegmentation(content: string)
    ensures ExtractBlocks(content) == BlockRegions(content)
  {
    var lines := Lines(content);
    var start := Scan(FirstLine, None, []);
    var next := Step(start, lines[0]);
    assert Run(start, lines) == Run(next, lines[1..]);
    if IsFrontmatterDelimiter(lines[0]) {
      RunFrontmatter(lines[1..]);
      match FirstDelimiter(lines[1..])
      case None =>
      case Some(j) =>
        assert lines[1..][j + 1..] == lines[j + 2..];
        RunBodyIsSegmentation(None, [], lines[j + 2..]);
    } else {
      RunBodyIsSegmentation(next.open, next.found, lines[1..]);
      OpenStep(lines);
    }
  }

  // ---------------------------------------------------------------------
  // What every region looks like

  /** Every region starts with tabs and an unchecked checkbox; every region
      but the last has no trailing whitespace, and the last one is either
      trimmed too or was still open at the end, in which case it holds a
      newline. */
  predicate WellFormedRegions(rs: seq<string>) {
    forall k :: 0 <= k < |rs| ==>
      && HasCheckboxPrefix(rs[k])
      && (TrimEnd(rs[k]) == rs[k] || (k == |rs| - 1 && '\n' in rs[k]))
  }

  lemma WellFormedCons(r: string, rs: seq<string>)
    requires HasCheckboxPrefix(r) && TrimEnd(r) == r
    requires WellFormedRegions(rs)
    ensures WellFormedRegions([r] + rs)
  {
    var all := [r] + rs;
    forall k | 0 <= k < |all|
      ensures HasCheckboxPrefix(all[k]) && (TrimEnd(all[k]) == all[k] || (k == |all| - 1 && '\n' in all[k]))
    {
      if k > 0 {
        assert all[k] == rs[k - 1];
      }
    }
  }

  lemma {:induction false} SegmentOpenWellFormed(text: string, level: nat, lines: seq<string>)
    requires HasCheckboxPrefix(text) && '\n' in text
    ensures WellFormedRegions(SegmentOpen(text, level, lines))
    decreases |lines|, 1
  {
    var n := AbsorbedRun(level, lines);
    var full := text + Glue(lines[..n]);
    CheckboxPrefixExtends(text, Glue(lines[..n]));
    assert '\n' in full by {
      var i :| 0 <= i < |text| && text[i] == '\n';
      assert full[i] == '\n';
    }
    if n < |lines| {
      CheckboxPrefixSurvivesTrimEnd(full);
      TrimEndIdempotent(full);
      SegmentWellFormed(lines[n..]);
      WellFormedCons(TrimEnd(full), Segment(lines[n..]));
    }
  }

  lemma {:induction false} SegmentWellFormed(lines: seq<string>)
    ensures WellFormedRegions(Segment(lines))
    decreases |lines|, 0
  {
    if lines != [] {
      if IsTodoLine(lines[0]) {
        var opener := lines[0] + "\n";
        TodoLineHasCheckbox(lines[0]);
        CheckboxPrefixExtends(lines[0], "\n");
        assert opener[|lines[0]|] == '\n';
        SegmentOpenWellFormed(opener, Indent(lines[0]), lines[1..]);
      } else {
        SegmentWellFormed(lines[1..]);
      }
    }
  }

  /** Every region the block extractor returns starts with tabs and an
      unchecked checkbox, and only a region still open at the end of the
      note keeps trailing whitespace; such a region always holds a newline,
      so it can never be equal to a single line of a note. */
  lemma ExtractBlocksWellFormed(content: string)
    ensures WellFormedRegions(ExtractBlocks(content))
  {
    ExtractBlocksIsSegmentation(content);
    var lines := Lines(content);
    if IsFrontmatterDelimiter(lines[0]) {
      match FirstDelimiter(lines[1..])
      case None =>
      case Some(j) => SegmentWellFormed(lines[j + 2..]);
    } else {
      SegmentWellFormed(lines);
    }
  }

  // ---------------------------------------------------------------------
  // Examples

  /** A todo, two deeper lines and a todo at the first one's level: the
      first region holds the three lines, trimmed; the second, open at the
      end, is the last todo with its newline. */
  lemma NestedLinesStayWithTheirTodo(content: string)
    requires content == "- [ ] a\n\tb\n\tc\n- [ ] d"
    ensures ExtractBlocks(content) == ["- [ ] a\n\tb\n\tc", "- [ ] d\n"]
  {
    NestedExample(content, "- [ ] a", "\tb", "\tc", "- [ ] d");
    assert "- [ ] a" + "\n" + "\tb" + "\n" + "\tc" == "- [ ] a\n\tb\n\tc";
    assert "- [ ] d" + "\n" == "- [ ] d\n";
  }

  lemma NestedExample(content: string, a: string, b: string, c: string, d: string)
    requires a == "- [ ] a" && b == "\tb" && c == "\tc" && d == "- [ ] d"
    requires content == a + "\n" + b + "\n" + c + "\n" + d
    ensures ExtractBlocks(content) == [a + "\n" + b + "\n" + c, d + "\n"]
  {
    var lines := [a, b, c, d];
    LinesOfFour(content, a, b, c, d);
    ExtractBlocksIsSegmentation(content);
    assert !IsFrontmatterDelimiter(a);
    NestedSegment(a, b, c, d);
  }

  lemma LinesOfFour(content: string, a: string, b: string, c: string, d: string)
    requires '\n' !in a && '\n' !in b && '\n' !in c && '\n' !in d
    requires content == a + "\n" + b + "\n" + c + "\n" + d
    ensures Lines(content) == [a, b, c, d]
  {
    var lines := [a, b, c, d];
    LinesJoin(lines);
    assert Join([d], "\n") == d;
    assert [c, d][1..] == [d];
    assert Join([c, d], "\n") == c + "\n" + d;
    assert [b, c, d][1..] == [c, d];
    assert Join([b, c, d], "\n") == b + "\n" + c + "\n" + d;
    assert lines[1..] == [b, c, d];
    assert Join(lines, "\n") == content;
  }

  lemma NestedSegment(a: string, b: string, c: string, d: string)
    requires a == "- [ ] a" && b == "\tb" && c == "\tc" && d == "- [ ] d"
    ensures Segment([a, b, c, d]) == [a + "\n" + b + "\n" + c, d + "\n"]
  {
    TodoLineExample(a);
    TodoLineExample(d);
    assert TabRun(b, 1) == 0 && TabRun(c, 1) == 0;
    assert !IsJsSpace(b[1]) && !IsJsSpace(c[1]) && !IsJsSpace(d[0]);
    assert !IsJsSpace(c[|c| - 1]);
    TwoDeeperLines(a, b, c, d);
  }

  lemma TwoDeeperLines(a: string, b: string, c: string, d: string)
    requires IsTodoLine(a) && Indent(a) == 0 && IsTodoLine(d) && Indent(d) == 0 && !IsBlankLine(d)
    requires Indent(b) > 0 && !IsBlankLine(b) && Indent(c) > 0 && !IsBlankLine(c)
    requires c != [] && !IsJsSpace(c[|c| - 1])
    ensures Segment([a, b, c, d]) == [a + "\n" + b + "\n" + c, d + "\n"]
  {
    assert [a, b, c, d][1..] == [b, c, d];
    TwoDeeperLinesOpen(a + "\n", b, c, d);
    TrimEndDropsNewline(a + "\n" + b + "\n" + c);
    SingleTodoSegment(d);
  }

  lemma TwoDeeperLinesOpen(t: string, b: string, c: string, d: string)
    requires Indent(b) > 0 && !IsBlankLine(b) && Indent(c) > 0 && !IsBlankLine(c)
    requires Indent(d) == 0 && !IsBlankLine(d)
    ensures SegmentOpen(t, 0, [b, c, d]) == [TrimEnd(t + b + "\n" + c + "\n")] + Segment([d])
  {
    assert [b, c, d][1..] == [c, d];
    assert [c, d][1..] == [d];
    AbsorbStep(t, 0, [b, c, d]);
    AbsorbStep(t + Piece(b), 0, [c, d]);
    BoundaryStep(t + Piece(b) + Piece(c), 0, [d]);
    assert t + Piece(b) + Piece(c) == t + b + "\n" + c + "\n";
  }

  /** A plain line at the todo's level ends its region even with no blank
      line in between, and is not part of it. */
  lemma PlainLineEndsRegion(content: string)
    requires content == "- [ ] a\nplain"
    ensures ExtractBlocks(content) == ["- [ ] a"]
  {
    PlainLineExample(content, "- [ ] a", "plain");
  }

  lemma PlainLineExample(content: string, a: string, p: string)
    requires a == "- [ ] a" && p == "plain"
    requires content == a + "\n" + p
    ensures ExtractBlocks(content) == [a]
  {
    var lines := [a, p];
    LinesJoin(lines);
    assert Join(lines, "\n") == content;
    ExtractBlocksIsSegmentation(content);
    assert !IsFrontmatterDelimiter(a);
    TodoLineExample(a);
    assert Indent(p) == 0 && !IsBlankLine(p);
    assert !IsTodoLine(p);
    assert lines[1..] == [p];
    BoundaryStep(a + "\n", 0, [p]);
    TrimEndDropsNewline(a);
    assert [p][1..] == [];
  }

  /** Todos inside the frontmatter are not rolled over. */
  lemma FrontmatterTodosIgnored(content: string)
    requires content == "---\n- [ ] x\n---\n- [ ] y"
    ensures ExtractBlocks(content) == ["- [ ] y\n"]
  {
    FrontmatterExample(content, "---", "- [ ] x", "- [ ] y");
    assert "- [ ] y" + "\n" == "- [ ] y\n";
  }

  lemma FrontmatterExample(content: string, dashes: string, x: string, y: string)
    requires dashes == "---" && x == "- [ ] x" && y == "- [ ] y"
    requires content == dashes + "\n" + x + "\n" + dashes + "\n" + y
    ensures ExtractBlocks(content) == [y + "\n"]
  {
    var lines := [dashes, x, dashes, y];
    LinesOfFour(content, dashes, x, dashes, y);
    ExtractBlocksIsSegmentation(content);
    assert IsFrontmatterDelimiter(dashes);
    assert !IsFrontmatterDelimiter(x);
    assert FirstDelimiter([x, dashes, y]) == Some(1);
    assert lines[1..] == [x, dashes, y];
    assert lines[3..] == [y];
    TodoLineExample(y);
    SingleTodoSegment(y);
  }

  lemma SingleTodoSegment(line: string)
    requires IsTodoLine(line)
    ensures Segment([line]) == [line + "\n"]
  {
    assert [line][1..] == [];
    assert [line][1..][..0] == [];
    assert line + "\n" + Glue([]) == line + "\n";
  }

  lemma TrimEndDropsNewline(x: string)
    requires x != [] && !IsJsSpace(x[|x| - 1])
    ensures TrimEnd(x + "\n") == x
  {
    TrimEndSpec(x + "\n");
    assert (x + "\n")[..|x|] == x;
  }

  lemma TodoLineExample(line: string)
    requires |line| == 7 && line[..6] == "- [ ] "
    ensures IsTodoLine(line) && Indent(line) == 0
  {
    assert TabRun(line, 0) == 0;
    assert line[0] == '-' && line[1] == ' ' && line[2] == '[' && line[3] == ' ' && line[4] == ']' && line[5] == ' ';
  }
}
