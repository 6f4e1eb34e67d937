/** Merging the carried todos into today's note.  The carry list is
    rendered as a newline followed by the items joined with newlines.  With
    a template heading selected, the source inserts it with
    `content.replace(heading, heading + block)`; if that changes nothing the
    heading counts as not found.  Without a heading, or when it was not
    found, the block is appended to the end of the note. */
module Merge {
  import opened Wrappers
  import opened JsText

  /** The heading setting that means "no heading selected". */
  const NoHeading: string := "none"

  /** `"\n" + carry.join("\n")` */
  function CarryBlock(carry: seq<string>): string {
    "\n" + Join(carry, "\n")
  }

  /** The notice for a selected heading that is not in today's note,
      verbatim (including the source's "daily not."). */
  function HeadingNotFoundMessage(heading: string): string {
    "Rollover couldn't find '" + heading + "' in today's daily not. Rolling todos to end of file."
  }

  /** ECMAScript GetSubstitution for a string search value (so no capture
      groups): `$$` gives `$`, `$&` the matched text, `` $` `` the text before
      the match, `$'` the text after it; any other `$` is kept as is. */
  function Substitute(template: string, str: string, position: nat, matched: string): string
    requires position + |matched| <= |str|
    decreases |template|
  {
    if template == [] then []
    else if template[0] == '$' && |template| >= 2 && template[1] == '$' then
      "$" + Substitute(template[2..], str, position, matched)
    else if template[0] == '$' && |template| >= 2 && template[1] == '&' then
      matched + Substitute(template[2..], str, position, matched)
    else if template[0] == '$' && |template| >= 2 && template[1] == '`' then
      str[..position] + Substitute(template[2..], str, position, matched)
    else if template[0] == '$' && |template| >= 2 && template[1] == '\'' then
      str[position + |matched|..] + Substitute(template[2..], str, position, matched)
    else
      [template[0]] + Substitute(template[1..], str, position, matched)
  }

  /** A replacement without `$` is inserted literally. */
  lemma {:induction false} SubstituteLiteral(template: string, str: string, position: nat, matched: string)
    requires position + |matched| <= |str|
    requires '$' !in template
    ensures Substitute(template, str, position, matched) == template
    decreases |template|
  {
    if template != [] {
      assert '$' !in template[1..];
      SubstituteLiteral(template[1..], str, position, matched);
      assert template == [template[0]] + template[1..];
    }
  }

  /** `s.replace(pattern, replacement)` with a string pattern: only the
      first occurrence is replaced. */
  function ReplaceFirst(s: string, pattern: string, replacement: string): string {
    match IndexOf(s, pattern)
    case None => s
    case Some(p) => s[..p] + Substitute(replacement, s, p, pattern) + s[p + |pattern|..]
  }

  /** The outcome for today's note: the text to write (`None` when nothing
      is written) and the heading-not-found notice (empty when there is
      none). */
  datatype Merged = Merged(write: Option<string>, notFoundMessage: string)

  /** The merge of `rollover`, as written: the heading insertion goes
      through `String.replace`, so `$` sequences in the heading or in the
      todos are interpreted. */
  function MergeIntoToday(today: string, carry: seq<string>, heading: string): Merged {
    if carry == [] then Merged(None, "")
    else
      var block := CarryBlock(carry);
      var selected := heading != NoHeading;
      var replaced := ReplaceFirst(today, heading, heading + block);
      var notFound := selected && replaced == today;
      var content := if selected && !notFound then replaced else today;
      Merged(Some(if !selected || notFound then content + block else content),
             if notFound then HeadingNotFoundMessage(heading) else "")
  }

  /** As written: nothing is written without todos to carry; with no
      heading selected, or a heading absent from today's note, the block is
      appended to the end, with the notice exactly in the second case. */
  lemma MergeIntoTodayAppends(today: string, carry: seq<string>, heading: string)
    ensures MergeIntoToday(today, carry, heading).write.None? <==> carry == []
    ensures carry != [] && (heading == NoHeading || IndexOf(today, heading).None?) ==>
      && MergeIntoToday(today, carry, heading).write == Some(today + CarryBlock(carry))
      && (MergeIntoToday(today, carry, heading).notFoundMessage == HeadingNotFoundMessage(heading)
          <==> heading != NoHeading)
  {
  }

  /** `s` with `block` inserted at index `q`. */
  function InsertAt(s: string, q: nat, block: string): string
    requires q <= |s|
  {
    s[..q] + block + s[q..]
  }

  /** The merge with the heading insertion made literal: the block goes
      right after the first occurrence of the heading, or at the end. */
  function MergeLiteral(today: string, carry: seq<string>, heading: string): Merged {
    if carry == [] then Merged(None, "")
    else
      var block := CarryBlock(carry);
      if heading == NoHeading then Merged(Some(today + block), "")
      else
        match IndexOf(today, heading)
        case Some(p) => Merged(Some(InsertAt(today, p + |heading|, block)), "")
        case None => Merged(Some(today + block), HeadingNotFoundMessage(heading))
  }

  /** Where the literal merge inserts the block: right after the first
      occurrence of a selected heading, else at the end. */
  function InsertionPoint(today: string, heading: string): (q: nat)
    ensures q <= |today|
  {
    if heading == NoHeading then |today|
    else
      match IndexOf(today, heading)
      case Some(p) => p + |heading|
      case None => |today|
  }

  /** The literal merge only adds the carry block, at one point: after the
      first occurrence of the selected heading, or at the end when no
      heading is selected or it is absent (a heading that ends the note
      also puts it at the end); the notice is given only for
      a selected heading that is absent; and cutting the block out again
      gives back today's note.  Nothing is written when nothing is carried. */
  lemma MergeLiteralInsertsBlock(today: string, carry: seq<string>, heading: string)
    ensures carry == [] <==> MergeLiteral(today, carry, heading).write.None?
    ensures carry != [] ==>
      var q := InsertionPoint(today, heading);
      var block := CarryBlock(carry);
      var w := MergeLiteral(today, carry, heading).write.value;
      && w == InsertAt(today, q, block)
      && w[..q] + w[q + |block|..] == today
      && (q == |today| <== (heading == NoHeading || IndexOf(today, heading).None?))
    ensures carry != [] && heading != NoHeading && IndexOf(today, heading).Some? ==>
      var p := IndexOf(today, heading).value;
      && OccursAt(today, heading, p)
      && InsertionPoint(today, heading) == p + |heading|
    ensures MergeLiteral(today, carry, heading).notFoundMessage != "" <==>
      carry != [] && heading != NoHeading && IndexOf(today, heading).None?
  {
    if carry != [] {
      var q := InsertionPoint(today, heading);
      var block := CarryBlock(carry);
      var w := InsertAt(today, q, block);
      assert w[..q] == today[..q];
      assert w[q + |block|..] == today[q..];
      assert today[..q] + today[q..] == today;
      if heading == NoHeading || IndexOf(today, heading).None? {
        assert today[..|today|] == today && today[|today|..] == [];
      }
    }
  }

  /** `$` occurs in none of the strings. */
  predicate DollarFree(parts: seq<string>) {
    forall k :: 0 <= k < |parts| ==> '$' !in parts[k]
  }

  lemma {:induction false} JoinDollarFree(parts: seq<string>)
    requires DollarFree(parts)
    ensures '$' !in Join(parts, "\n")
  {
    if |parts| > 1 {
      JoinDollarFree(parts[1..]);
    }
  }

  /** Without `$` in the heading or the todos, the source's merge is the
      literal one. */
  lemma MergeAgreesWithoutDollar(today: string, carry: seq<string>, heading: string)
    requires '$' !in heading && DollarFree(carry)
    ensures MergeIntoToday(today, carry, heading) == MergeLiteral(today, carry, heading)
  {
    if carry != [] && heading != NoHeading {
      var block := CarryBlock(carry);
      JoinDollarFree(carry);
      assert '$' !in heading + block;
      match IndexOf(today, heading)
      case None =>
      case Some(p) =>
        LiteralReplaceInserts(today, heading, block, p);
    }
  }

  /** With a `$`-free replacement, replacing the heading by itself plus a
      non-empty block inserts the block after the heading, and so changes
      the text. */
  lemma LiteralReplaceInserts(today: string, heading: string, block: string, p: nat)
    requires IndexOf(today, heading) == Some(p)
    requires '$' !in heading + block && block != []
    ensures ReplaceFirst(today, heading, heading + block) == InsertAt(today, p + |heading|, block)
    ensures ReplaceFirst(today, heading, heading + block) != today
  {
    SubstituteLiteral(heading + block, today, p, heading);
    assert OccursAt(today, heading, p);
    SpliceAfter(today, heading, block, p);
  }

  /** Splicing `heading + block` over an occurrence of `heading` inserts
      `block` after it. */
  lemma SpliceAfter(today: string, heading: string, block: string, p: nat)
    requires OccursAt(today, heading, p) && block != []
    ensures today[..p] + (heading + block) + today[p + |heading|..] == InsertAt(today, p + |heading|, block)
    ensures |today[..p] + (heading + block) + today[p + |heading|..]| > |today|
  {
    var q := p + |heading|;
    assert today[..q] == today[..p] + today[p..q];
  }



  /** A `$$` in a rolled-over todo reaches today's note as a single `$`
      when a template heading is used: `String.replace` reads the todo as a
      replacement pattern. */
  lemma DollarInTodoIsRewritten(today: string, todo: string)
    requires today == "## T" && todo == "- [ ] pay $$5"
    ensures MergeIntoToday(today, [todo], today).write == Some("## T\n- [ ] pay $5")
    ensures MergeLiteral(today, [todo], today).write == Some("## T\n- [ ] pay $$5")
  {
    var block := CarryBlock([todo]);
    assert block == "\n- [ ] pay $$5";
    assert OccursAt(today, today, 0);
    assert IndexOf(today, today) == Some(0);
    var tmpl := today + block;
    DollarExampleSubstitution(tmpl, today);
    assert today != NoHeading;
    assert today[..0] == [] && today[4..] == [];
    var replaced := ReplaceFirst(today, today, tmpl);
    assert replaced == "## T\n- [ ] pay $5";
    assert replaced != today by { assert |replaced| != |today|; }
    assert InsertAt(today, 4, block) == today + block;
  }

  lemma DollarExampleSubstitution(tmpl: string, today: string)
    requires today == "## T" && tmpl == "## T\n- [ ] pay $$5"
    ensures Substitute(tmpl, today, 0, today) == "## T\n- [ ] pay $5"
  {
    var tail := "5";
    SubstituteLiteral(tail, today, 0, today);
    assert tmpl[15..] == "$$5";
    assert tmpl[17..] == tail;
    assert Substitute("$$5", today, 0, today) == "$5";
    var head := tmpl[..15];
    assert '$' !in head;
    SubstituteConcat(head, "$$5", today, 0, today);
    SubstituteLiteral(head, today, 0, today);
    assert tmpl == head + "$$5";
  }

  /** A literal prefix without `$` is copied and the rest substituted. */
  lemma {:induction false} SubstituteConcat(a: string, b: string, str: string, position: nat, matched: string)
    requires position + |matched| <= |str|
    requires '$' !in a
    ensures Substitute(a + b, str, position, matched) == a + Substitute(b, str, position, matched)
    decreases |a|
  {
    if a != [] {
      assert (a + b)[0] == a[0] && (a + b)[1..] == a[1..] + b;
      assert '$' !in a[1..];
      SubstituteConcat(a[1..], b, str, position, matched);
      assert a == [a[0]] + a[1..];
    } else {
      assert a + b == b;
    }
  }
}
