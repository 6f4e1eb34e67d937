/** `rollover` as one pure step, once yesterday's note has been chosen and
    both notes read: extract the unfinished todos from yesterday, stop if
    there are none, drop empty ones if asked, merge the rest into today's
    note, prune yesterday's note if asked, and compose the notice and the
    undo snapshot. */
module RolloverTodos {
  import opened Wrappers
  import opened JsText
  import opened TodoPattern
  import opened FlatExtract
  import opened BlockExtract
  import opened EmptyFilter
  import opened Merge
  import opened Prune
  import opened Summary

  /** The plugin's settings (`debug` only affects logging). */
  datatype Settings = Settings(
    templateHeading: string,
    deleteOnComplete: bool,
    removeEmptyTodos: bool,
    includeSubContent: bool,
    debug: bool)

  /** The settings used when nothing has been saved. */
  const DefaultSettings: Settings := Settings(NoHeading, false, false, false, false)

  /** The undo history entry: the old content of each note that is
      rewritten (`None` when that note is left alone). */
  datatype Snapshot = Snapshot(previousDay: Option<string>, today: Option<string>)

  datatype RunResult =
    | NothingToRollOver
    | Completed(
        todayWrite: Option<string>,
        yesterdayWrite: Option<string>,
        added: nat,
        removed: nat,
        notice: Option<Notice>,
        undo: Snapshot)

  /** The extractor the `includeSubContent` setting selects. */
  function Extract(yesterday: string, includeSubContent: bool): seq<string> {
    if includeSubContent then ExtractBlocks(yesterday) else FlatTodos(yesterday)
  }

  /** One rollover, with the heading insertion made literal. */
  function Rollover(yesterday: string, today: string, settings: Settings): RunResult {
    var items := Extract(yesterday, settings.includeSubContent);
    if |items| == 0 then NothingToRollOver
    else
      var f := FilterEmpties(items, settings.removeEmptyTodos);
      var m := MergeLiteral(today, f.carry, settings.templateHeading);
      Completed(
        m.write,
        if settings.deleteOnComplete then Some(PruneNote(yesterday, items)) else None,
        f.added,
        f.removed,
        SummaryNotice(m.notFoundMessage, f.added, f.removed, settings.deleteOnComplete),
        Snapshot(if settings.deleteOnComplete then Some(yesterday) else None,
                 if f.carry != [] then Some(today) else None))
  }

  /** The run stops, touching nothing, exactly when yesterday's note has no
      unfinished todo. */
  lemma AbortsIffNothingExtracted(yesterday: string, today: string, settings: Settings)
    ensures Rollover(yesterday, today, settings).NothingToRollOver? <==>
      Extract(yesterday, settings.includeSubContent) == []
  {
  }

  /** Today's note is rewritten exactly when something is carried, and
      then it is today's note with the carry block inserted at one point. */
  lemma TodayGetsTheCarriedTodos(yesterday: string, today: string, settings: Settings)
    ensures var r := Rollover(yesterday, today, settings);
      r.Completed? ==>
      var carry := FilterEmpties(Extract(yesterday, settings.includeSubContent), settings.removeEmptyTodos).carry;
      && (r.todayWrite.Some? <==> carry != [])
      && (r.todayWrite.Some? ==>
            r.todayWrite.value == InsertAt(today, InsertionPoint(today, settings.templateHeading), CarryBlock(carry)))
  {
    var carry := FilterEmpties(Extract(yesterday, settings.includeSubContent), settings.removeEmptyTodos).carry;
    MergeLiteralInsertsBlock(today, carry, settings.templateHeading);
  }

  /** Yesterday's note is rewritten exactly when `deleteOnComplete` is set,
      even if no line is removed; a line goes exactly when it equals an
      extracted item, empty ones included. */
  lemma YesterdayLosesTheExtractedLines(yesterday: string, today: string, settings: Settings)
    ensures var r := Rollover(yesterday, today, settings);
      r.Completed? ==>
      var items := Extract(yesterday, settings.includeSubContent);
      && (r.yesterdayWrite.Some? <==> settings.deleteOnComplete)
      && (r.yesterdayWrite.Some? ==>
            && r.yesterdayWrite.value == Join(Keep(Lines(yesterday), items), "\n")
            && forall x :: x in Keep(Lines(yesterday), items) <==> x in Lines(yesterday) && x !in items)
  {
    KeepKeepsExactlyOthers(Lines(yesterday), Extract(yesterday, settings.includeSubContent));
  }

  /** Every extracted item is counted once, as added or as removed, and
      with `removeEmptyTodos` off none is removed. */
  lemma CountsAddUp(yesterday: string, today: string, settings: Settings)
    ensures var r := Rollover(yesterday, today, settings);
      r.Completed? ==>
      && r.added + r.removed == |Extract(yesterday, settings.includeSubContent)|
      && (!settings.removeEmptyTodos ==> r.removed == 0)
      && (r.notice.Some? <==>
            || r.added > 0
            || (r.removed > 0 && settings.deleteOnComplete)
            || (r.todayWrite.Some? && settings.templateHeading != NoHeading
                && IndexOf(today, settings.templateHeading).None?))
  {
    var f := FilterEmpties(Extract(yesterday, settings.includeSubContent), settings.removeEmptyTodos);
    var m := MergeLiteral(today, f.carry, settings.templateHeading);
    NoticeShownIffMessage(m.notFoundMessage, f.added, f.removed, settings.deleteOnComplete);
    MergeLiteralInsertsBlock(today, f.carry, settings.templateHeading);
  }

  /** The undo entry records, for each note that is rewritten, its content
      before the run, and nothing for a note left alone. */
  lemma UndoRecordsWhatWasOverwritten(yesterday: string, today: string, settings: Settings)
    ensures var r := Rollover(yesterday, today, settings);
      r.Completed? ==>
      && (r.undo.today.Some? <==> r.todayWrite.Some?)
      && (r.undo.today.Some? ==> r.undo.today.value == today)
      && (r.undo.previousDay.Some? <==> r.yesterdayWrite.Some?)
      && (r.undo.previousDay.Some? ==> r.undo.previousDay.value == yesterday)
  {
    var f := FilterEmpties(Extract(yesterday, settings.includeSubContent), settings.removeEmptyTodos);
    MergeLiteralInsertsBlock(today, f.carry, settings.templateHeading);
  }

  /** With the default settings every flat item is appended to the end of
      today's note and yesterday's note is left alone. */
  lemma DefaultsAppendEverything(yesterday: string, today: string)
    requires FlatTodos(yesterday) != []
    ensures var r := Rollover(yesterday, today, DefaultSettings);
      && r.Completed?
      && r.todayWrite == Some(today + CarryBlock(FlatTodos(yesterday)))
      && r.yesterdayWrite == None
      && r.added == |FlatTodos(yesterday)| && r.removed == 0
  {
    MergeLiteralInsertsBlock(today, FlatTodos(yesterday), NoHeading);
    assert today[..|today|] == today && today[|today|..] == [];
  }

  /** The journal example: yesterday's note holds a heading and two todos
      and today's note the same heading.  With the default settings both
      todos are found and appended to today's note after a blank line, and
      yesterday's note is left alone. */
  lemma JournalScenario(yesterday: string, today: string)
    requires yesterday == "# Journal\n- [ ] task A\n- [ ] task B\n" && today == "# Journal\n"
    ensures var r := Rollover(yesterday, today, DefaultSettings);
      && r.Completed?
      && r.todayWrite == Some("# Journal\n\n- [ ] task A\n- [ ] task B")
      && r.yesterdayWrite == None
      && r.added == 2 && r.removed == 0
  {
    var h, a, b := "# Journal", "- [ ] task A", "- [ ] task B";
    JournalPieces(yesterday, h, a, b);
    JournalTodos(yesterday, h, a, b);
    DefaultsAppendEverything(yesterday, today);
    JournalAppended(today, a, b);
  }

  /** The same example with `deleteOnComplete`: both todo lines leave
      yesterday's note, and only the heading and the final empty line
      remain. */
  lemma JournalScenarioDeleting(yesterday: string, today: string, settings: Settings)
    requires yesterday == "# Journal\n- [ ] task A\n- [ ] task B\n" && today == "# Journal\n"
    requires settings == DefaultSettings.(deleteOnComplete := true)
    ensures Rollover(yesterday, today, settings).Completed?
    ensures Rollover(yesterday, today, settings).yesterdayWrite == Some("# Journal\n")
  {
    var h, a, b := "# Journal", "- [ ] task A", "- [ ] task B";
    JournalPieces(yesterday, h, a, b);
    JournalTodos(yesterday, h, a, b);
    AbortsIffNothingExtracted(yesterday, today, settings);
    YesterdayLosesTheExtractedLines(yesterday, today, settings);
    JournalPruned(yesterday, h, a, b);
  }

  lemma JournalPieces(yesterday: string, h: string, a: string, b: string)
    requires yesterday == "# Journal\n- [ ] task A\n- [ ] task B\n"
    requires h == "# Journal" && a == "- [ ] task A" && b == "- [ ] task B"
    ensures yesterday == h + "\n" + a + "\n" + b + "\n"
  {
  }

  lemma JournalAppended(today: string, a: string, b: string)
    requires today == "# Journal\n" && a == "- [ ] task A" && b == "- [ ] task B"
    ensures today + CarryBlock([a, b]) == "# Journal\n\n- [ ] task A\n- [ ] task B"
  {
    TwoTodosBlock(today, a, b);
  }

  lemma JournalPruned(yesterday: string, h: string, a: string, b: string)
    requires h == "# Journal" && a == "- [ ] task A" && b == "- [ ] task B"
    requires yesterday == h + "\n" + a + "\n" + b + "\n"
    ensures PruneNote(yesterday, [a, b]) == "# Journal\n"
  {
    assert '\n' !in h && '\n' !in a && '\n' !in b;
    TwoTodosPruned(yesterday, a, b, h);
  }

  /** Pruning two one-line todos from a three-line note leaves the
      heading line and the final empty line. */
  lemma TwoTodosPruned(yesterday: string, a: string, b: string, h: string)
    requires yesterday == h + "\n" + a + "\n" + b + "\n"
    requires '\n' !in h && '\n' !in a && '\n' !in b
    requires |h| != |a| && |h| != |b| && a != "" && b != ""
    ensures PruneNote(yesterday, [a, b]) == h + "\n"
  {
    JournalLines(yesterday, h, a, b);
    KeepTwo(h, a, b);
  }

  lemma TwoTodosBlock(today: string, a: string, b: string)
    ensures today + CarryBlock([a, b]) == today + "\n" + a + "\n" + b
  {
    assert [a, b][1..] == [b];
    assert Join([b], "\n") == b;
    assert Join([a, b], "\n") == a + "\n" + b;
  }

  lemma KeepTwo(h: string, a: string, b: string)
    requires |h| != |a| && |h| != |b| && a != "" && b != ""
    ensures Join(Keep([h, a, b, ""], [a, b]), "\n") == h + "\n"
  {
    var items := [a, b];
    var lines := [h, a, b, ""];
    assert "" !in items && h !in items && a in items && b in items;
    assert Keep([""], items) == [""] by {
      assert [""][1..] == [];
    }
    assert Keep([b, ""], items) == [""] by {
      assert [b, ""][1..] == [""];
    }
    assert Keep([a, b, ""], items) == [""] by {
      assert [a, b, ""][1..] == [b, ""];
    }
    assert Keep(lines, items) == [h, ""] by {
      assert lines[1..] == [a, b, ""];
    }
    assert Join([h, ""], "\n") == h + "\n" by {
      assert [h, ""][1..] == [""];
    }
  }

  lemma JournalLines(yesterday: string, a: string, b: string, c: string)
    requires '\n' !in a && '\n' !in b && '\n' !in c
    requires yesterday == a + "\n" + b + "\n" + c + "\n"
    ensures Lines(yesterday) == [a, b, c, ""]
  {
    var ls := [a, b, c, ""];
    JoinOfFour(yesterday, a, b, c);
    assert forall k :: 0 <= k < |ls| ==> '\n' !in ls[k];
    LinesJoin(ls);
  }

  lemma JoinOfFour(t: string, a: string, b: string, c: string)
    requires t == a + "\n" + b + "\n" + c + "\n"
    ensures Join([a, b, c, ""], "\n") == t
  {
    var ls := [a, b, c, ""];
    assert ls[1..] == [b, c, ""] && ls[1..][1..] == [c, ""] && ls[1..][1..][1..] == [""];
    assert Join([c, ""], "\n") == c + "\n" + "";
  }

  lemma JournalTodos(yesterday: string, h: string, a: string, b: string)
    requires h == "# Journal" && a == "- [ ] task A" && b == "- [ ] task B"
    requires yesterday == h + "\n" + a + "\n" + b + "\n"
    ensures FlatTodos(yesterday) == [a, b]
  {
    JournalSpans(yesterday, h, a, b);
    JournalTexts(yesterday, h, a, b);
  }

  lemma JournalTexts(yesterday: string, h: string, a: string, b: string)
    requires |h| == 9 && |a| == 12 && |b| == 12
    requires yesterday == h + "\n" + a + "\n" + b + "\n"
    requires IsMatch(yesterday, Span(10, 22)) && IsMatch(yesterday, Span(23, 35))
    ensures Texts(yesterday, [Span(10, 22), Span(23, 35)]) == [a, b]
  {
    ThreeLineLayout(yesterday, h, a, b);
    TextsOfTwo(yesterday, Span(10, 22), Span(23, 35));
  }

  lemma TextsOfTwo(s: string, x: Span, y: Span)
    requires IsMatch(s, x) && IsMatch(s, y)
    ensures x.start <= x.end <= |s| && y.start <= y.end <= |s|
    ensures Texts(s, [x, y]) == [s[x.start..x.end], s[y.start..y.end]]
  {
    MatchBounds(s, [x, y]);
  }

  /** Where the pieces of a three-line note sit. */
  lemma ThreeLineLayout(s: string, h: string, a: string, b: string)
    requires s == h + "\n" + a + "\n" + b + "\n"
    ensures |s| == |h| + |a| + |b| + 3
    ensures forall p :: 0 <= p < |h| ==> s[p] == h[p]
    ensures s[|h|] == '\n'
    ensures s[|h| + 1..|h| + 1 + |a|] == a && s[|h| + 1 + |a|] == '\n'
    ensures s[|h| + |a| + 2..|h| + |a| + 2 + |b|] == b && s[|h| + |a| + 2 + |b|] == '\n'
  {
    assert s == h + ("\n" + a + "\n") + (b + "\n");
    assert s == (h + "\n") + a + ("\n" + b + "\n");
  }

  /** A line `- [ ] ` followed by text and a newline is matched up to the
      newline. */
  lemma TodoLineAt(s: string, i: nat, line: string)
    requires |line| >= 6 && line[..6] == "- [ ] "
    requires forall q :: 6 <= q < |line| ==> !IsLineTerminator(line[q])
    requires i + |line| < |s| && s[i..i + |line|] == line && s[i + |line|] == '\n'
    ensures MatchEnd(s, i) == Some(i + |line|)
  {
    assert forall q :: 0 <= q < |line| ==> s[i + q] == line[q];
    assert line[0] == '-' && line[1] == ' ' && line[2] == '[' && line[3] == ' ' && line[4] == ']' && line[5] == ' ' by {
      assert forall q :: 0 <= q < 6 ==> line[q] == line[..6][q];
    }
    assert TabRun(s, i) == 0;
    assert LineEnd(s, i + 6) == i + |line|;
  }

  lemma JournalSpans(s: string, h: string, a: string, b: string)
    requires h == "# Journal" && a == "- [ ] task A" && b == "- [ ] task B"
    requires s == h + "\n" + a + "\n" + b + "\n"
    ensures Spans(s, 0) == [Span(10, 22), Span(23, 35)]
    ensures IsMatch(s, Span(10, 22)) && IsMatch(s, Span(23, 35))
  {
    JournalTail(s, h, a, b);
    JournalHead(s, h, a, b);
  }

  lemma JournalHead(s: string, h: string, a: string, b: string)
    requires h == "# Journal"
    requires s == h + "\n" + a + "\n" + b + "\n"
    ensures Spans(s, 0) == Spans(s, 10)
  {
    HeadingChars(s, h, a + "\n" + b + "\n");
    SkipNoMatch(s, 0, 10);
  }

  lemma HeadingChars(s: string, h: string, rest: string)
    requires h == "# Journal"
    requires s == h + "\n" + rest
    ensures forall p :: 0 <= p < 10 ==> s[p] != '\t' && !IsMarker(s[p])
  {
    assert s[..10] == "# Journal\n";
    assert forall p :: 0 <= p < 10 ==> s[p] == s[..10][p];
  }

  lemma JournalTail(s: string, h: string, a: string, b: string)
    requires |h| == 9 && a == "- [ ] task A" && b == "- [ ] task B"
    requires s == h + "\n" + a + "\n" + b + "\n"
    ensures Spans(s, 10) == [Span(10, 22), Span(23, 35)]
    ensures IsMatch(s, Span(10, 22)) && IsMatch(s, Span(23, 35))
  {
    ThreeLineLayout(s, h, a, b);
    TodoLineAt(s, 10, a);
    TodoLineAt(s, 23, b);
    NoMatchAtPlainChar(s, 22);
    NoMatchAtPlainChar(s, 35);
    assert Spans(s, 35) == Spans(s, 36);
    assert Spans(s, 23) == [Span(23, 35)] + Spans(s, 35);
    assert Spans(s, 22) == Spans(s, 23);
    assert Spans(s, 10) == [Span(10, 22)] + Spans(s, 22);
  }
}
