/** Removing rolled-over todos from yesterday's note (`deleteOnComplete`):
    the note is split on newlines, every line equal to one of the extracted
    items is spliced out walking from the end, and the lines are joined
    again. */
module Prune {
  import opened JsText
  import opened Sequences
  import opened TodoPattern

  /** The lines that are not among the items, in order. */
  function Keep(lines: seq<string>, items: seq<string>): seq<string> {
    if lines == [] then []
    else (if lines[0] in items then [] else [lines[0]]) + Keep(lines[1..], items)
  }

  lemma {:induction false} KeepAppend(a: seq<string>, b: seq<string>, items: seq<string>)
    ensures Keep(a + b, items) == Keep(a, items) + Keep(b, items)
  {
    if a != [] {
      assert (a + b)[1..] == a[1..] + b;
      KeepAppend(a[1..], b, items);
    } else {
      assert a + b == b;
    }
  }

  /** One step of the backward walk: position `i` is decided, everything
      after it already pruned. */
  lemma SpliceStep(lines0: seq<string>, i: nat, items: seq<string>)
    requires i < |lines0|
    ensures lines0[..i] + Keep(lines0[i..], items)
         == (if lines0[i] in items then lines0[..i] else lines0[..i + 1]) + Keep(lines0[i + 1..], items)
  {
    assert lines0[i..] == [lines0[i]] + lines0[i + 1..];
    KeepAppend([lines0[i]], lines0[i + 1..], items);
    assert lines0[..i + 1] == lines0[..i] + [lines0[i]];
  }

  /** The source's loop: from `i = lines.length` down to 0, splice out
      `lines[i]` when the items include it (at `i = lines.length` the line
      is `undefined`, which no item equals). */
  method SpliceOut(lines0: seq<string>, items: seq<string>) returns (lines: seq<string>)
    ensures lines == Keep(lines0, items)
  {
    lines := lines0;
    var i: int := |lines0|;
    while i >= 0
      invariant -1 <= i <= |lines0|
      invariant lines == lines0[..Min(i + 1, |lines0|)] + Keep(lines0[Min(i + 1, |lines0|)..], items)
      decreases i
    {
      if i < |lines0| {
        SpliceStep(lines0, i, items);
        ghost var tail := Keep(lines0[i + 1..], items);
        assert lines == lines0[..i + 1] + tail;
        assert lines[i] == lines0[i];
        if i < |lines| && lines[i] in items {
          assert lines[..i] == lines0[..i];
          assert lines[i + 1..] == tail;
          lines := lines[..i] + lines[i + 1..];
        }
      } else {
        assert lines == lines0;
      }
      i := i - 1;
    }
    assert lines0[..0] == [] && lines0[0..] == lines0;
  }

  /** Yesterday's note after removing the items. */
  function PruneNote(text: string, items: seq<string>): string {
    Join(Keep(Lines(text), items), "\n")
  }

  /** A line is kept exactly when it is not one of the items, as many times
      as it occurred and in the original order. */
  lemma KeepKeepsExactlyOthers(lines: seq<string>, items: seq<string>)
    ensures forall x :: x in Keep(lines, items) <==> x in lines && x !in items
    ensures forall x :: multiset(Keep(lines, items))[x] == if x in items then 0 else multiset(lines)[x]
    ensures IsSubsequence(Keep(lines, items), lines)
  {
    KeepCounts(lines, items);
    KeepSubsequence(lines, items);
    forall x ensures x in Keep(lines, items) <==> x in lines && x !in items {
      assert x in Keep(lines, items) <==> x in multiset(Keep(lines, items));
      assert x in lines <==> x in multiset(lines);
    }
  }

  lemma {:induction false} KeepCounts(lines: seq<string>, items: seq<string>)
    ensures forall x :: multiset(Keep(lines, items))[x] == if x in items then 0 else multiset(lines)[x]
  {
    if lines != [] {
      KeepCounts(lines[1..], items);
      assert lines == [lines[0]] + lines[1..];
    }
  }

  lemma {:induction false} KeepSubsequence(lines: seq<string>, items: seq<string>)
    ensures IsSubsequence(Keep(lines, items), lines)
  {
    if lines != [] {
      KeepSubsequence(lines[1..], items);
      var k := Keep(lines, items);
      if lines[0] in items {
        assert k == Keep(lines[1..], items);
      } else {
        assert k == [lines[0]] + Keep(lines[1..], items);
        assert k[0] == lines[0] && k[1..] == Keep(lines[1..], items);
      }
    }
  }


  /** Kept lines contain no newline. */
  lemma {:induction false} KeepHasNoNewline(lines: seq<string>, items: seq<string>)
    requires forall k :: 0 <= k < |lines| ==> '\n' !in lines[k]
    ensures forall k :: 0 <= k < |Keep(lines, items)| ==> '\n' !in Keep(lines, items)[k]
  {
    if lines != [] {
      KeepHasNoNewline(lines[1..], items);
    }
  }

  lemma {:induction false} KeepIdempotent(lines: seq<string>, items: seq<string>)
    ensures Keep(Keep(lines, items), items) == Keep(lines, items)
  {
    if lines != [] {
      KeepIdempotent(lines[1..], items);
      var k := Keep(lines, items);
      if lines[0] !in items {
        assert k == [lines[0]] + Keep(lines[1..], items);
        assert k[0] == lines[0] && k[1..] == Keep(lines[1..], items);
        assert Keep(k, items) == [lines[0]] + Keep(k[1..], items);
      } else {
        assert k == Keep(lines[1..], items);
      }
    }
  }

  /** Pruning twice with the same items removes nothing more. */
  lemma PruneIdempotent(text: string, items: seq<string>)
    ensures PruneNote(PruneNote(text, items), items) == PruneNote(text, items)
  {
    var kept := Keep(Lines(text), items);
    KeepIdempotent(Lines(text), items);
    if kept == [] {
      assert PruneNote(text, items) == "";
      assert Lines("") == [""];
      if "" in items {
        assert Keep([""], items) == [];
      } else {
        assert Keep([""], items) == [""];
      }
    } else {
      KeepHasNoNewline(Lines(text), items);
      LinesJoin(kept);
    }
  }

  lemma {:induction false} KeepNothing(lines: seq<string>, items: seq<string>)
    requires forall k :: 0 <= k < |lines| ==> lines[k] !in items
    ensures Keep(lines, items) == lines
  {
    if lines != [] {
      KeepNothing(lines[1..], items);
      assert lines == [lines[0]] + lines[1..];
    }
  }

  /** An item that spans several lines equals no line of the note, so when
      every item does, the note is left exactly as it was. */
  lemma MultiLineItemsAreNeverPruned(text: string, items: seq<string>)
    requires forall k :: 0 <= k < |items| ==> '\n' in items[k]
    ensures PruneNote(text, items) == text
  {
    var lines := Lines(text);
    assert forall k :: 0 <= k < |lines| ==> lines[k] !in items;
    KeepNothing(lines, items);
    JoinLines(text);
  }

  /** A todo indented with spaces is rolled over by the flat extractor
      without its indentation, so it equals no line and stays in
      yesterday's note. */
  lemma SpaceIndentedTodoStays(text: string, item: string)
    requires text == "  - [ ] a" && item == "- [ ] a"
    ensures PruneNote(text, [item]) == text
  {
    assert Lines(text) == [text] by { LinesOfLine(text); }
    assert text != item;
    assert Keep([text], [item]) == [text];
  }
}
