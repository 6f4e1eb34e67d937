/** The empty-todo filter of `rollover`: with `removeEmptyTodos` set, an
    extracted item whose trimmed text is exactly `- [ ]` or `- [  ]` is
    dropped and counted; every other item is carried forward and counted. */
module EmptyFilter {
  import opened JsText
  import opened TodoPattern
  import opened Sequences

  /** The two spellings of an empty todo the filter recognises. */
  predicate IsEmptyTodo(item: string) {
    Trim(item) == "- [ ]" || Trim(item) == "- [  ]"
  }

  /** The carry list (`todos_today`) and the two counters (`todosAdded`,
      `emptiesToNotAddToTomorrow`). */
  datatype Filtered = Filtered(carry: seq<string>, added: nat, removed: nat)

  /** Reference: the items that are not empty, in their order. */
  function NonEmpty(items: seq<string>): seq<string> {
    if items == [] then []
    else (if IsEmptyTodo(items[0]) then [] else [items[0]]) + NonEmpty(items[1..])
  }

  /** The `forEach` over the extracted items, continuing from `acc`. */
  function FilterFrom(items: seq<string>, acc: Filtered): (r: Filtered)
    ensures r.carry == acc.carry + NonEmpty(items)
    ensures r.added == acc.added + |NonEmpty(items)|
    ensures r.added + r.removed == acc.added + acc.removed + |items|
  {
    if items == [] then acc
    else
      NonEmptyStep(items, acc.carry);
      if !IsEmptyTodo(items[0]) then
        FilterFrom(items[1..], Filtered(acc.carry + [items[0]], acc.added + 1, acc.removed))
      else
        FilterFrom(items[1..], Filtered(acc.carry, acc.added, acc.removed + 1))
  }

  lemma NonEmptyStep(items: seq<string>, carry: seq<string>)
    requires items != []
    ensures !IsEmptyTodo(items[0]) ==>
      && carry + NonEmpty(items) == carry + [items[0]] + NonEmpty(items[1..])
      && |NonEmpty(items)| == 1 + |NonEmpty(items[1..])|
    ensures IsEmptyTodo(items[0]) ==> NonEmpty(items) == NonEmpty(items[1..])
  {
  }

  /** The filter step: without `removeEmptyTodos` everything is carried
      forward; with it, exactly the non-empty items are, and every item is
      counted once as added or as removed. */
  function FilterEmpties(items: seq<string>, removeEmptyTodos: bool): (r: Filtered)
    ensures !removeEmptyTodos ==> r.carry == items && r.added == |items| && r.removed == 0
    ensures removeEmptyTodos ==> r.carry == NonEmpty(items)
    ensures r.added == |r.carry| && r.added + r.removed == |items|
  {
    if removeEmptyTodos then FilterFrom(items, Filtered([], 0, 0))
    else Filtered(items, |items|, 0)
  }

  /** The carry list keeps exactly the non-empty items: an item is carried
      if and only if it was extracted and is not empty, as many times as it
      was extracted, and in the extraction order. */
  lemma NonEmptyKeepsExactlyNonEmpty(items: seq<string>)
    ensures forall x :: x in NonEmpty(items) <==> x in items && !IsEmptyTodo(x)
    ensures forall x :: multiset(NonEmpty(items))[x] == if IsEmptyTodo(x) then 0 else multiset(items)[x]
    ensures IsSubsequence(NonEmpty(items), items)
  {
    NonEmptyCounts(items);
    NonEmptySubsequence(items);
    forall x ensures x in NonEmpty(items) <==> x in items && !IsEmptyTodo(x) {
      assert x in NonEmpty(items) <==> x in multiset(NonEmpty(items));
      assert x in items <==> x in multiset(items);
    }
  }

  lemma {:induction false} NonEmptyCounts(items: seq<string>)
    ensures forall x :: multiset(NonEmpty(items))[x] == if IsEmptyTodo(x) then 0 else multiset(items)[x]
  {
    if items != [] {
      NonEmptyCounts(items[1..]);
      assert items == [items[0]] + items[1..];
    }
  }

  lemma {:induction false} NonEmptySubsequence(items: seq<string>)
    ensures IsSubsequence(NonEmpty(items), items)
  {
    if items != [] {
      NonEmptySubsequence(items[1..]);
      var rest := NonEmpty(items[1..]);
      if !IsEmptyTodo(items[0]) {
        assert NonEmpty(items) == [items[0]] + rest;
        assert NonEmpty(items)[1..] == rest;
      } else {
        assert NonEmpty(items) == rest;
      }
    }
  }


  /** Filtering a second time removes nothing more. */
  lemma {:induction false} NonEmptyIdempotent(items: seq<string>)
    ensures NonEmpty(NonEmpty(items)) == NonEmpty(items)
  {
    if items != [] {
      NonEmptyIdempotent(items[1..]);
      var rest := NonEmpty(items[1..]);
      if !IsEmptyTodo(items[0]) {
        var kept := [items[0]] + rest;
        assert kept[0] == items[0] && kept[1..] == rest;
        assert NonEmpty(items) == kept;
        assert NonEmpty(kept) == [items[0]] + NonEmpty(rest);
      } else {
        assert NonEmpty(items) == rest;
      }
    }
  }

  /** The double-space spelling never matches an extracted item: every
      extracted item has `[ ]` with one space after its marker, which
      `trim` leaves in place. */
  lemma DoubleSpaceSpellingUnreachable(item: string)
    requires HasCheckboxPrefix(item)
    ensures Trim(item) != "- [  ]"
    ensures IsEmptyTodo(item) <==> Trim(item) == "- [ ]"
  {
    var k := TabRun(item, 0);
    var e := TrimEnd(item);
    TrimEndSpec(item);
    TrimStartSpec(e);
    assert !IsJsSpace(item[k + 4]);
    assert k + 5 <= |e|;
    assert e == item[..|e|];
    var t := TrimStart(e);
    var d := |e| - |t|;
    assert !IsJsSpace(e[k]);
    assert d <= k;
    assert d == k;
    assert t[4] == item[k + 4];
  }

  /** With `removeEmptyTodos`, the list `["- [ ]", "- [ ] buy milk", "- [  ]"]`
      carries only the middle item and counts one added and two removed. */
  lemma FilterExample(a: string, b: string, c: string)
    requires a == "- [ ]" && b == "- [ ] buy milk" && c == "- [  ]"
    ensures FilterEmpties([a, b, c], true) == Filtered([b], 1, 2)
  {
    TrimExample(a);
    TrimExample(c);
    TrimExample(b);
    assert IsEmptyTodo(a) && !IsEmptyTodo(b) && IsEmptyTodo(c);
    assert [a, b, c][1..] == [b, c];
    assert [b, c][1..] == [c];
    assert [c][1..] == [];
    assert NonEmpty([c]) == [];
    assert NonEmpty([b, c]) == [b];
    assert NonEmpty([a, b, c]) == [b];
  }

  lemma TrimExample(s: string)
    requires |s| > 0 && !IsJsSpace(s[0]) && !IsJsSpace(s[|s| - 1])
    ensures Trim(s) == s
  {
  }
}
