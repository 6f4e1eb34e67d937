/** Flat extraction (`getAllUnfinishedTodos`): every match of the global
    regular expression `(\t*)[-*]\s\[ \]\s.*` over the whole note text, in
    document order.  The pattern is not anchored to a line, so a todo in the
    middle of a line matches without what precedes it, and its `\s` may be
    a newline, so a checkbox that ends its line takes the next line along. */
module FlatExtract {
  import opened Wrappers
  import opened JsText
  import opened TodoPattern

  /** The half-open index range `[start, end)` of one match. */
  datatype Span = Span(start: nat, end: nat)

  /** The pattern matches at `sp.start` and the match ends at `sp.end`. */
  predicate IsMatch(s: string, sp: Span) {
    sp.start <= |s| && MatchEnd(s, sp.start) == Some(sp.end)
  }

  /** Index `p` lies inside one of the spans. */
  predicate Covered(r: seq<Span>, p: nat) {
    exists k :: 0 <= k < |r| && r[k].start <= p < r[k].end
  }

  /** The pattern matches at index `p` of `s`. */
  predicate MatchStarts(s: string, p: nat) {
    p <= |s| && MatchEnd(s, p).Some?
  }

  /** The matches `matchAll` reports when the search starts at index `i`:
      each search takes the leftmost index where the pattern matches, and
      the next search resumes where that match ended. */
  function Spans(s: string, i: nat): (r: seq<Span>)
    requires i <= |s|
    ensures forall k :: 0 <= k < |r| ==> i <= r[k].start && IsMatch(s, r[k])
    ensures forall k :: 0 <= k < |r| - 1 ==> r[k].end <= r[k + 1].start
    decreases |s| - i
  {
    if i == |s| then []
    else
      match MatchEnd(s, i)
      case Some(e) =>
        var rest := Spans(s, e);
        assert IsMatch(s, Span(i, e));
        ConsOrdered(Span(i, e), rest);
        [Span(i, e)] + rest
      case None => Spans(s, i + 1)
  }

  lemma ConsOrdered(sp: Span, rest: seq<Span>)
    requires forall k :: 0 <= k < |rest| ==> sp.end <= rest[k].start
    requires forall k :: 0 <= k < |rest| - 1 ==> rest[k].end <= rest[k + 1].start
    ensures forall k :: 0 <= k < |[sp] + rest| - 1 ==> ([sp] + rest)[k].end <= ([sp] + rest)[k + 1].start
  {
    var r := [sp] + rest;
    forall k | 0 <= k < |r| - 1 ensures r[k].end <= r[k + 1].start {
      if k > 0 {
        assert r[k] == rest[k - 1] && r[k + 1] == rest[k];
      }
    }
  }

  /** Every index from `i` on at which the pattern matches lies inside one
      of the spans `r`. */
  predicate CoversMatchesFrom(s: string, i: nat, r: seq<Span>) {
    forall p :: i <= p < |s| && MatchStarts(s, p) ==> Covered(r, p)
  }

  /** Leftmost: every index at which the pattern matches lies inside one of
      the reported spans, so no match was skipped over. */
  lemma {:induction false} SpansCoverEveryMatch(s: string, i: nat)
    requires i <= |s|
    ensures CoversMatchesFrom(s, i, Spans(s, i))
    decreases |s| - i
  {
    if i < |s| {
      match MatchEnd(s, i)
      case Some(e) =>
        SpansCoverEveryMatch(s, e);
        CoverAfterMatch(s, i, e);
      case None =>
        SpansCoverEveryMatch(s, i + 1);
        CoverAfterSkip(s, i);
    }
  }

  lemma CoverAfterSkip(s: string, i: nat)
    requires i < |s| && MatchEnd(s, i).None?
    requires CoversMatchesFrom(s, i + 1, Spans(s, i + 1))
    ensures CoversMatchesFrom(s, i, Spans(s, i))
  {
    assert Spans(s, i) == Spans(s, i + 1);
    assert !MatchStarts(s, i);
  }

  lemma CoverAfterMatch(s: string, i: nat, e: nat)
    requires i < |s| && MatchEnd(s, i) == Some(e)
    requires CoversMatchesFrom(s, e, Spans(s, e))
    ensures CoversMatchesFrom(s, i, Spans(s, i))
  {
    var rest := Spans(s, e);
    assert Spans(s, i) == [Span(i, e)] + rest;
    forall p | i <= p < |s| && MatchStarts(s, p)
      ensures Covered([Span(i, e)] + rest, p)
    {
      CoveredCons(Span(i, e), rest, p);
    }
  }

  /** A point is covered by a list with one more span in front when it is
      in that span or covered by the rest. */
  lemma CoveredCons(sp: Span, rest: seq<Span>, p: nat)
    requires sp.start <= p < sp.end || Covered(rest, p)
    ensures Covered([sp] + rest, p)
  {
    var r := [sp] + rest;
    if sp.start <= p < sp.end {
      assert r[0] == sp;
    } else {
      var k :| 0 <= k < |rest| && rest[k].start <= p < rest[k].end;
      assert r[k + 1] == rest[k];
    }
  }

  /** `r` is a list of ordered, non-overlapping matches from index `i` on
      that leaves no match start uncovered. */
  predicate LeftmostMatches(s: string, i: nat, r: seq<Span>) {
    && (forall k :: 0 <= k < |r| ==> i <= r[k].start && IsMatch(s, r[k]))
    && (forall k :: 0 <= k < |r| - 1 ==> r[k].end <= r[k + 1].start)
    && (forall p :: i <= p < |s| && MatchStarts(s, p) ==> Covered(r, p))
  }

  /** The leftmost non-overlapping matches are unique: any list with those
      properties is the one `matchAll` reports. */
  lemma {:induction false} SpansUnique(s: string, i: nat, r: seq<Span>)
    requires i <= |s|
    requires LeftmostMatches(s, i, r)
    ensures r == Spans(s, i)
    decreases |s| - i
  {
    if i == |s| {
    } else {
      var m := MatchEnd(s, i);
      if m.Some? {
        UniqueHead(s, i, m.value, r);
        SpansUnique(s, m.value, r[1..]);
        assert r == [Span(i, m.value)] + r[1..];
      } else {
        UniqueSkip(s, i, r);
        SpansUnique(s, i + 1, r);
      }
    }
  }

  lemma UniqueHead(s: string, i: nat, e: nat, r: seq<Span>)
    requires i < |s| && MatchEnd(s, i) == Some(e)
    requires LeftmostMatches(s, i, r)
    ensures |r| > 0 && r[0] == Span(i, e)
    ensures LeftmostMatches(s, e, r[1..])
  {
    HeadIsFirstMatch(s, i, e, r);
    TailStartsAfterHead(r);
    TailCovers(s, e, r);
  }

  lemma TailStartsAfterHead(r: seq<Span>)
    requires |r| > 0
    requires forall k :: 0 <= k < |r| ==> r[k].start <= r[k].end
    requires forall k :: 0 <= k < |r| - 1 ==> r[k].end <= r[k + 1].start
    ensures forall j :: 0 <= j < |r[1..]| ==> r[0].end <= r[1..][j].start
  {
    forall j | 0 <= j < |r[1..]|
      ensures r[0].end <= r[1..][j].start
    {
      Ordered(r, 0, j + 1);
    }
  }

  lemma TailCovers(s: string, e: nat, r: seq<Span>)
    requires |r| > 0 && r[0].end == e
    requires forall p :: e <= p < |s| && MatchStarts(s, p) ==> Covered(r, p)
    ensures forall p :: e <= p < |s| && MatchStarts(s, p) ==> Covered(r[1..], p)
  {
    var rest := r[1..];
    forall p | e <= p < |s| && MatchStarts(s, p)
      ensures Covered(rest, p)
    {
      var j :| 0 <= j < |r| && r[j].start <= p < r[j].end;
      assert rest[j - 1].start <= p < rest[j - 1].end;
    }
  }

  lemma HeadIsFirstMatch(s: string, i: nat, e: nat, r: seq<Span>)
    requires i < |s| && MatchEnd(s, i) == Some(e)
    requires LeftmostMatches(s, i, r)
    ensures |r| > 0 && r[0] == Span(i, e)
  {
    assert MatchStarts(s, i);
    assert Covered(r, i);
    var k :| 0 <= k < |r| && r[k].start <= i < r[k].end;
    assert IsMatch(s, r[0]);
    assert i <= r[0].start < r[0].end;
    if k > 0 {
      Ordered(r, 0, k);
    }
    assert r[0].start == i;
  }

  lemma UniqueSkip(s: string, i: nat, r: seq<Span>)
    requires i < |s| && MatchEnd(s, i).None?
    requires LeftmostMatches(s, i, r)
    ensures LeftmostMatches(s, i + 1, r)
  {
    forall k | 0 <= k < |r|
      ensures i + 1 <= r[k].start
    {
      assert IsMatch(s, r[k]);
    }
  }

  lemma {:induction false} Ordered(r: seq<Span>, a: nat, b: nat)
    requires forall k :: 0 <= k < |r| ==> r[k].start <= r[k].end
    requires forall k :: 0 <= k < |r| - 1 ==> r[k].end <= r[k + 1].start
    requires a < b < |r|
    ensures r[a].end <= r[b].start
    decreases b - a
  {
    if a + 1 < b {
      Ordered(r, a + 1, b);
    }
  }

  /** The text of each span, in order. */
  function Texts(s: string, sp: seq<Span>): seq<string>
    requires forall k :: 0 <= k < |sp| ==> IsMatch(s, sp[k])
  {
    MatchBounds(s, sp);
    seq(|sp|, k requires 0 <= k < |sp| => s[sp[k].start..sp[k].end])
  }

  lemma MatchBounds(s: string, sp: seq<Span>)
    requires forall k :: 0 <= k < |sp| ==> IsMatch(s, sp[k])
    ensures forall k :: 0 <= k < |sp| ==> sp[k].start <= sp[k].end <= |s|
  {
    forall k | 0 <= k < |sp|
      ensures sp[k].start <= sp[k].end <= |s|
    {
      assert IsMatch(s, sp[k]);
    }
  }

  /** `Array.from(contents.matchAll(/(\t*)[-*]\s\[ \]\s.*\/g)).map(([todo]) => todo)`:
      the texts of the leftmost non-overlapping matches, whichever list of
      such matches is taken, and each of them a word of the todo pattern's
      language, so it starts with tabs and an unchecked checkbox. */
  function FlatTodos(s: string): (r: seq<string>)
    ensures forall sp :: LeftmostMatches(s, 0, sp) ==> r == Texts(s, sp)
    ensures forall k :: 0 <= k < |r| ==> IsTodoText(r[k]) && HasCheckboxPrefix(r[k])
  {
    SpansAreTheLeftmostMatches(s);
    MatchTextsAreTodos(s, Spans(s, 0));
    Texts(s, Spans(s, 0))
  }

  lemma SpansAreTheLeftmostMatches(s: string)
    ensures forall sp :: LeftmostMatches(s, 0, sp) ==> sp == Spans(s, 0)
  {
    forall sp | LeftmostMatches(s, 0, sp)
      ensures sp == Spans(s, 0)
    {
      SpansUnique(s, 0, sp);
    }
  }

  lemma MatchTextsAreTodos(s: string, sp: seq<Span>)
    requires forall k :: 0 <= k < |sp| ==> IsMatch(s, sp[k])
    ensures forall k :: 0 <= k < |Texts(s, sp)| ==> IsTodoText(Texts(s, sp)[k]) && HasCheckboxPrefix(Texts(s, sp)[k])
  {
    var r := Texts(s, sp);
    forall k | 0 <= k < |r|
      ensures IsTodoText(r[k]) && HasCheckboxPrefix(r[k])
    {
      MatchEndIsLongestMatch(s, sp[k].start);
    }
  }

  /** No match can start at a character that is neither a tab nor a marker. */
  lemma NoMatchAtPlainChar(s: string, p: nat)
    requires p < |s| && s[p] != '\t' && !IsMarker(s[p])
    ensures MatchEnd(s, p).None?
  {
  }

  /** The search skips over a stretch of characters where no match starts. */
  lemma {:induction false} SkipNoMatch(s: string, i: nat, j: nat)
    requires i <= j <= |s|
    requires forall p :: i <= p < j ==> s[p] != '\t' && !IsMarker(s[p])
    ensures Spans(s, i) == Spans(s, j)
    decreases j - i
  {
    if i < j {
      NoMatchAtPlainChar(s, i);
      SkipNoMatch(s, i + 1, j);
    }
  }

  /** A todo in the middle of a line is found, without the characters before
      it on its line. */
  lemma MidLineTodoDropsLeadingText(s: string)
    requires s == "  - [ ] a"
    ensures FlatTodos(s) == ["- [ ] a"]
  {
    SkipNoMatch(s, 0, 2);
    assert TabRun(s, 2) == 0;
    assert LineEnd(s, 9) == 9;
    assert LineEnd(s, 8) == 9;
    assert MatchEnd(s, 2) == Some(9);
    assert Spans(s, 2) == [Span(2, 9)] + Spans(s, 9);
    assert Spans(s, 0) == [Span(2, 9)];
    assert s[2..9] == "- [ ] a";
  }

  /** A checkbox that ends its line swallows the next line through `\s`. */
  lemma BareCheckboxSwallowsNextLine(s: string)
    requires s == "- [ ]\nnext"
    ensures FlatTodos(s) == [s]
  {
    assert TabRun(s, 0) == 0;
    assert LineEnd(s, 10) == 10;
    assert LineEnd(s, 9) == 10;
    assert LineEnd(s, 8) == 10;
    assert LineEnd(s, 7) == 10;
    assert LineEnd(s, 6) == 10;
    assert MatchEnd(s, 0) == Some(10);
    assert Spans(s, 0) == [Span(0, 10)] + Spans(s, 10);
    assert Spans(s, 0) == [Span(0, 10)];
    assert s[0..10] == s;
  }

  /** A checkbox at the very end of the text is not found: the second `\s`
      has nothing to match. */
  lemma BareCheckboxAtEndIsMissed(s: string)
    requires s == "x\n- [ ]"
    ensures FlatTodos(s) == []
  {
    SkipNoMatch(s, 0, 2);
    assert MatchEnd(s, 2).None?;
    SkipNoMatch(s, 3, |s|);
  }

  /** Both markers are recognised, and the items come back verbatim in
      document order. */
  lemma DashAndStarInOrder(s: string)
    requires s == "- [ ] foo\n* [ ] bar"
    ensures FlatTodos(s) == ["- [ ] foo", "* [ ] bar"]
  {
    DashAndStarSpans(s);
    DashAndStarSlices(s);
  }

  lemma DashAndStarSlices(s: string)
    requires s == "- [ ] foo\n* [ ] bar"
    ensures s[0..9] == "- [ ] foo" && s[10..19] == "* [ ] bar"
  {
  }

  lemma DashAndStarSpans(s: string)
    requires s == "- [ ] foo\n* [ ] bar"
    ensures Spans(s, 0) == [Span(0, 9), Span(10, 19)]
  {
    DashAndStarFirst(s);
    DashAndStarSecond(s);
    NoMatchAtPlainChar(s, 9);
    assert Spans(s, 10) == [Span(10, 19)] + Spans(s, 19);
    assert Spans(s, 9) == Spans(s, 10);
    assert Spans(s, 0) == [Span(0, 9)] + Spans(s, 9);
  }

  lemma DashAndStarFirst(s: string)
    requires s == "- [ ] foo\n* [ ] bar"
    ensures MatchEnd(s, 0) == Some(9)
  {
    assert TabRun(s, 0) == 0;
    assert LineEnd(s, 9) == 9;
    assert LineEnd(s, 8) == 9;
    assert LineEnd(s, 7) == 9;
    assert LineEnd(s, 6) == 9;
  }

  lemma DashAndStarSecond(s: string)
    requires s == "- [ ] foo\n* [ ] bar"
    ensures MatchEnd(s, 10) == Some(19)
  {
    assert TabRun(s, 10) == 0;
    assert LineEnd(s, 19) == 19;
    assert LineEnd(s, 18) == 19;
    assert LineEnd(s, 17) == 19;
    assert LineEnd(s, 16) == 19;
  }
}
