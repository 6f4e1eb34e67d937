/** The notice shown after a rollover.  It is made of up to three parts,
    the heading-not-found notice, "- N todo(s) rolled over. " and, when
    yesterday's note is pruned, "- M empty todo(s) removed. ".  The
    non-empty parts are joined with newlines, and the notice stays on
    screen for 4000 ms plus 3 ms per UTF-16 code unit of the message. */
module Summary {
  import opened Wrappers
  import opened JsText
  import opened Sequences

  function Plural(n: nat): string {
    if n > 1 then "s" else ""
  }

  /** The rolled-over part, with its trailing space; empty for no todos. */
  function AddedPart(added: nat): string {
    if added == 0 then ""
    else "- " + NatToString(added) + " todo" + Plural(added) + " rolled over." + " "
  }

  /** The removed-empties part, with its trailing space; empty unless
      empties were dropped and yesterday's note is pruned. */
  function EmptiesPart(removed: nat, deleteOnComplete: bool): string {
    if removed == 0 || !deleteOnComplete then ""
    else "- " + NatToString(removed) + " empty todo" + Plural(removed) + " removed." + " "
  }

  /** The parts that are not empty, all of them and in order. */
  function NonBlank(parts: seq<string>): (r: seq<string>)
    ensures forall k :: 0 <= k < |r| ==> r[k] != [] && r[k] in parts
    ensures forall x :: x in parts && x != [] ==> x in r
    ensures IsSubsequence(r, parts)
  {
    if parts == [] then []
    else
      var rest := NonBlank(parts[1..]);
      if parts[0] == [] then rest
      else
        assert ([parts[0]] + rest)[1..] == rest;
        [parts[0]] + rest
  }

  lemma NonBlankOfThree(a: string, b: string, c: string)
    ensures NonBlank([a, b, c])
         == (if a == [] then [] else [a]) + (if b == [] then [] else [b]) + (if c == [] then [] else [c])
  {
    assert [c][1..] == [];
    assert NonBlank([c]) == (if c == [] then [] else [c]) + NonBlank([]);
    assert [b, c][1..] == [c];
    assert NonBlank([b, c]) == (if b == [] then [] else [b]) + NonBlank([c]);
    assert [a, b, c][1..] == [b, c];
  }

  function SummaryMessage(notFound: string, added: nat, removed: nat, deleteOnComplete: bool): string {
    Join(NonBlank([notFound, AddedPart(added), EmptiesPart(removed, deleteOnComplete)]), "\n")
  }

  /** `new Notice(message, duration)` */
  datatype Notice = Notice(text: string, durationMs: nat)

  /** The notice shown, if any. */
  function SummaryNotice(notFound: string, added: nat, removed: nat, deleteOnComplete: bool): Option<Notice> {
    var message := SummaryMessage(notFound, added, removed, deleteOnComplete);
    if |message| > 0 then Some(Notice(message, 4000 + 3 * Utf16Length(message))) else None
  }

  lemma {:induction false} JoinEmptyIff(parts: seq<string>)
    requires forall k :: 0 <= k < |parts| ==> parts[k] != []
    ensures Join(parts, "\n") == [] <==> parts == []
  {
  }

  /** There is a message exactly when the heading was not found, todos
      were rolled over, or empties were dropped from a pruned note. */
  lemma MessageEmptyIff(notFound: string, added: nat, removed: nat, deleteOnComplete: bool)
    ensures SummaryMessage(notFound, added, removed, deleteOnComplete) == [] <==>
      notFound == [] && added == 0 && (removed == 0 || !deleteOnComplete)
  {
    var parts := [notFound, AddedPart(added), EmptiesPart(removed, deleteOnComplete)];
    var nb := NonBlank(parts);
    JoinEmptyIff(nb);
    NonBlankOfThree(notFound, AddedPart(added), EmptiesPart(removed, deleteOnComplete));
  }

  /** A notice is shown exactly when there is a message, and its duration
      grows with the message: 3 to 6 ms per character over 4 seconds. */
  lemma NoticeShownIffMessage(notFound: string, added: nat, removed: nat, deleteOnComplete: bool)
    ensures var n := SummaryNotice(notFound, added, removed, deleteOnComplete);
      var m := SummaryMessage(notFound, added, removed, deleteOnComplete);
      && (n.Some? <==> (notFound != [] || added > 0 || (removed > 0 && deleteOnComplete)))
      && (n.Some? ==> n.value.text == m && 4000 + 3 * |m| <= n.value.durationMs <= 4000 + 6 * |m|)
  {
    MessageEmptyIff(notFound, added, removed, deleteOnComplete);
  }

  /** Each non-empty part is one line of the message, provided the
      heading-not-found notice holds no newline. */
  lemma MessageLinesAreParts(notFound: string, added: nat, removed: nat, deleteOnComplete: bool)
    requires '\n' !in notFound
    requires SummaryMessage(notFound, added, removed, deleteOnComplete) != []
    ensures Lines(SummaryMessage(notFound, added, removed, deleteOnComplete))
         == NonBlank([notFound, AddedPart(added), EmptiesPart(removed, deleteOnComplete)])
  {
    var parts := [notFound, AddedPart(added), EmptiesPart(removed, deleteOnComplete)];
    var nb := NonBlank(parts);
    NatToStringHasNoNewline(added);
    NatToStringHasNoNewline(removed);
    assert forall k :: 0 <= k < |parts| ==> '\n' !in parts[k];
    assert nb != [];
    LinesJoin(nb);
  }

  lemma NatToStringHasNoNewline(n: nat)
    ensures '\n' !in NatToString(n)
  {
    var r := NatToString(n);
    assert forall i :: 0 <= i < |r| ==> IsDigit(r[i]);
    assert !IsDigit('\n');
  }

  /** The longest prefix of decimal digits. */
  function DigitRun(s: string): (r: string)
    ensures r <= s
    ensures forall i :: 0 <= i < |r| ==> IsDigit(r[i])
  {
    if s != [] && IsDigit(s[0]) then [s[0]] + DigitRun(s[1..]) else []
  }

  /** The count a "- N ..." line reports. */
  function ReadCount(part: string): Option<nat> {
    if |part| >= 2 && part[..2] == "- " && DigitRun(part[2..]) != [] then
      Some(DecimalValue(DigitRun(part[2..])))
    else None
  }

  lemma {:induction false} DigitRunOf(a: string, b: string)
    requires forall i :: 0 <= i < |a| ==> IsDigit(a[i])
    requires b == [] || !IsDigit(b[0])
    ensures DigitRun(a + b) == a
  {
    if a == [] {
      assert a + b == b;
    } else {
      assert (a + b)[1..] == a[1..] + b;
      DigitRunOf(a[1..], b);
      assert a == [a[0]] + a[1..];
    }
  }

  lemma ReadsBack(n: nat, rest: string)
    requires rest != [] && rest[0] == ' '
    ensures ReadCount("- " + NatToString(n) + rest) == Some(n)
  {
    var part := "- " + NatToString(n) + rest;
    assert part[..2] == "- ";
    assert part[2..] == NatToString(n) + rest;
    DigitRunOf(NatToString(n), rest);
    NatToStringRoundTrip(n);
  }

  /** The rolled-over count can be read back from its part. */
  lemma AddedPartReadsBack(added: nat)
    requires added > 0
    ensures ReadCount(AddedPart(added)) == Some(added)
  {
    var rest := " todo" + Plural(added) + " rolled over." + " ";
    assert AddedPart(added) == "- " + NatToString(added) + rest;
    ReadsBack(added, rest);
  }

  /** The removed-empties count can be read back from its part. */
  lemma EmptiesPartReadsBack(removed: nat)
    requires removed > 0
    ensures ReadCount(EmptiesPart(removed, true)) == Some(removed)
  {
    var rest := " empty todo" + Plural(removed) + " removed." + " ";
    assert EmptiesPart(removed, true) == "- " + NatToString(removed) + rest;
    ReadsBack(removed, rest);
  }

  /** Two todos rolled over and nothing else: one line, with its trailing
      space, shown for 4000 + 3 * 23 ms. */
  lemma TwoTodosNotice(m: string)
    requires m == "- 2 todos rolled over. "
    ensures SummaryNotice("", 2, 0, false) == Some(Notice(m, 4069))
  {
    TwoTodosMessage(m);
    TwoTodosLength(m);
  }

  lemma TwoTodosMessage(m: string)
    requires m == "- 2 todos rolled over. "
    ensures SummaryMessage("", 2, 0, false) == m
  {
    TwoTodosPart(m);
    NonBlankOfThree("", m, "");
    assert Join([m], "\n") == m;
  }

  lemma TwoTodosLength(m: string)
    requires m == "- 2 todos rolled over. "
    ensures Utf16Length(m) == 23
  {
    assert |m| == 23;
    assert forall i :: 0 <= i < |m| ==> m[i] as int <= 0xFFFF;
  }

  lemma TwoTodosPart(m: string)
    requires m == "- 2 todos rolled over. "
    ensures AddedPart(2) == m
  {
    TwoDigits(2);
    assert m == "- " + "2" + " todo" + "s" + " rolled over." + " ";
  }

  lemma TwoDigits(n: nat)
    requires n == 2
    ensures NatToString(n) == "2" && Plural(n) == "s"
  {
    assert DigitChar(2) == '2';
  }
}
