/** The line classifier: the three regular expressions of `src/index.js`
    (the unfinished-todo pattern, the frontmatter delimiter and the
    whitespace-only test) and the tab indentation `^(\t*)`, written as
    explicit predicates over characters. */
module TodoPattern {
  import opened Wrappers
  import opened JsText

  function Min(a: nat, b: nat): nat {
    if a <= b then a else b
  }

  predicate IsMarker(c: char) {
    c == '-' || c == '*'
  }

  /** The number of consecutive tabs in `s` starting at index `i`. */
  function TabRun(s: string, i: nat): (n: nat)
    requires i <= |s|
    ensures i + n <= |s|
    ensures forall j :: i <= j < i + n ==> s[j] == '\t'
    ensures i + n < |s| ==> s[i + n] != '\t'
    decreases |s| - i
  {
    if i < |s| && s[i] == '\t' then 1 + TabRun(s, i + 1) else 0
  }

  /** `line.match(/^(\t*)/)[1].length`: indentation counts tabs only. */
  function Indent(line: string): nat {
    TabRun(line, 0)
  }

  /** `[-*]\s\[ \]` starts at index `k` of `s`. */
  predicate CheckboxAt(s: string, k: nat) {
    && k + 5 <= |s|
    && IsMarker(s[k]) && IsJsSpace(s[k + 1])
    && s[k + 2] == '[' && s[k + 3] == ' ' && s[k + 4] == ']'
  }

  /** The text starts with tabs followed by an unchecked checkbox. */
  predicate HasCheckboxPrefix(s: string) {
    CheckboxAt(s, TabRun(s, 0))
  }

  /** Membership of a whole string in the language of
      `(\t*)[-*]\s\[ \]\s.*`: tabs, a marker, one whitespace character,
      `[ ]`, one whitespace character, then no line terminator. */
  predicate IsTodoText(t: string) {
    var m := TabRun(t, 0);
    && m + 6 <= |t|
    && CheckboxAt(t, m) && IsJsSpace(t[m + 5])
    && forall q :: m + 6 <= q < |t| ==> !IsLineTerminator(t[q])
  }

  /** The first line terminator at or after `j`, or the end of `s`: where
      a greedy `.*` started at `j` stops. */
  function LineEnd(s: string, j: nat): (e: nat)
    requires j <= |s|
    ensures j <= e <= |s|
    ensures forall q :: j <= q < e ==> !IsLineTerminator(s[q])
    ensures e < |s| ==> IsLineTerminator(s[e])
    decreases |s| - j
  {
    if j == |s| || IsLineTerminator(s[j]) then j else LineEnd(s, j + 1)
  }

  lemma {:induction false} TabRunSlice(s: string, i: nat, j: nat, p: nat)
    requires i <= j <= |s| && p <= j - i
    ensures TabRun(s[i..j], p) == Min(TabRun(s, i + p), j - i - p)
    decreases j - i - p
  {
    if p < j - i && s[i + p] == '\t' {
      TabRunSlice(s, i, j, p + 1);
    }
  }

  /** The regular expression `(\t*)[-*]\s\[ \]\s.*` tried at index `i` of
      `s`: the end of the match, or `None`.  Backtracking inside `\t*` is
      never useful, since giving a tab back leaves a tab where `[-*]` must
      match; so only the full tab run is tried. */
  function MatchEnd(s: string, i: nat): (r: Option<nat>)
    requires i <= |s|
    ensures r.Some? ==> i + 6 <= r.value <= |s|
  {
    var k := i + TabRun(s, i);
    if k + 6 <= |s| && CheckboxAt(s, k) && IsJsSpace(s[k + 5]) then
      Some(LineEnd(s, k + 6))
    else
      None
  }

  /** `MatchEnd` is the regular expression's semantics: the match it reports
      is the longest prefix of `s[i..]` in the pattern's language, and it
      reports none exactly when no prefix is in that language. */
  lemma MatchEndIsLongestMatch(s: string, i: nat)
    requires i <= |s|
    ensures MatchEnd(s, i).Some? ==> IsTodoText(s[i..MatchEnd(s, i).value])
    ensures MatchEnd(s, i).Some? ==> forall j :: MatchEnd(s, i).value < j <= |s| ==> !IsTodoText(s[i..j])
    ensures MatchEnd(s, i).None? ==> forall j :: i <= j <= |s| ==> !IsTodoText(s[i..j])
  {
    if MatchEnd(s, i).Some? {
      MatchEndSome(s, i, MatchEnd(s, i).value);
    } else {
      MatchEndNone(s, i);
    }
  }

  /** `IsTodoText` on a slice, read off the whole string. */
  lemma TodoTextSlice(s: string, i: nat, j: nat)
    requires i <= j <= |s|
    ensures IsTodoText(s[i..j]) <==>
      var k := i + TabRun(s, i);
      && k + 6 <= j && CheckboxAt(s, k) && IsJsSpace(s[k + 5])
      && forall q :: k + 6 <= q < j ==> !IsLineTerminator(s[q])
  {
    var t := s[i..j];
    TabRunSlice(s, i, j, 0);
    var m := TabRun(t, 0);
    var k := i + TabRun(s, i);
    if m + 6 <= |t| {
      assert m == TabRun(s, i);
      assert CheckboxAt(t, m) <==> CheckboxAt(s, k) by {
        assert t[m] == s[k] && t[m + 1] == s[k + 1] && t[m + 2] == s[k + 2];
        assert t[m + 3] == s[k + 3] && t[m + 4] == s[k + 4];
      }
      assert t[m + 5] == s[k + 5];
      NoTerminatorSlice(s, i, j, k + 6);
    }
  }

  /** No line terminator in a slice's tail exactly when none in the same
      stretch of the whole string. */
  lemma NoTerminatorSlice(s: string, i: nat, j: nat, from: nat)
    requires i <= from <= j <= |s|
    ensures (forall q :: from - i <= q < j - i ==> !IsLineTerminator(s[i..j][q]))
        <==> (forall q :: from <= q < j ==> !IsLineTerminator(s[q]))
  {
    var t := s[i..j];
    if forall q :: from - i <= q < j - i ==> !IsLineTerminator(t[q]) {
      forall q | from <= q < j ensures !IsLineTerminator(s[q]) {
        assert s[q] == t[q - i];
      }
    }
  }

  lemma MatchEndSome(s: string, i: nat, e: nat)
    requires i <= |s|
    requires i + TabRun(s, i) + 6 <= |s| && CheckboxAt(s, i + TabRun(s, i))
    requires IsJsSpace(s[i + TabRun(s, i) + 5])
    requires e == LineEnd(s, i + TabRun(s, i) + 6)
    ensures IsTodoText(s[i..e])
    ensures forall j :: e < j <= |s| ==> !IsTodoText(s[i..j])
  {
    TodoTextSlice(s, i, e);
    forall j | e < j <= |s|
      ensures !IsTodoText(s[i..j])
    {
      TodoTextSlice(s, i, j);
      assert IsLineTerminator(s[e]);
    }
  }

  lemma MatchEndNone(s: string, i: nat)
    requires i <= |s|
    requires !(i + TabRun(s, i) + 6 <= |s| && CheckboxAt(s, i + TabRun(s, i)) && IsJsSpace(s[i + TabRun(s, i) + 5]))
    ensures forall j :: i <= j <= |s| ==> !IsTodoText(s[i..j])
  {
    forall j | i <= j <= |s|
      ensures !IsTodoText(s[i..j])
    {
      TodoTextSlice(s, i, j);
      if i + TabRun(s, i) + 6 <= j {
        assert CheckboxAt(s, i + TabRun(s, i)) ==> !IsJsSpace(s[i + TabRun(s, i) + 5]);
      }
    }
  }

  /** `line.match(/^(\t*)[-*]\s\[ \]\s.*\/)`: the todo pattern anchored at
      the start of a line; the trailing `.*` may match nothing. */
  predicate IsTodoLine(line: string) {
    MatchEnd(line, 0).Some?
  }

  /** `line.match(/^---*.*$/)`: two dashes, then only characters `.`
      accepts up to the end of the string. */
  predicate IsFrontmatterDelimiter(line: string) {
    && |line| >= 2 && line[0] == '-' && line[1] == '-'
    && forall q :: 2 <= q < |line| ==> !IsLineTerminator(line[q])
  }

  /** `line.match(/^\s*\n?$/)`: the line is empty or whitespace only. */
  predicate IsBlankLine(line: string) {
    forall q :: 0 <= q < |line| ==> IsJsSpace(line[q])
  }

  /** The anchored todo test accepts exactly the lines that begin with a
      word of the todo pattern's language. */
  lemma TodoLineIffPrefixInLanguage(line: string)
    ensures IsTodoLine(line) <==> exists j :: 0 <= j <= |line| && IsTodoText(line[..j])
  {
    var r := MatchEnd(line, 0);
    MatchEndIsLongestMatch(line, 0);
    assert line[0..] == line;
    if r.Some? {
      assert line[0..r.value] == line[..r.value];
    } else {
      forall j | 0 <= j <= |line|
        ensures !IsTodoText(line[..j])
      {
        assert line[0..j] == line[..j];
      }
    }
  }

  /** A todo line starts with its own checkbox. */
  lemma TodoLineHasCheckbox(line: string)
    requires IsTodoLine(line)
    ensures HasCheckboxPrefix(line)
    ensures Indent(line) + 6 <= |line|
  {
  }

  /** No line is both a frontmatter delimiter and a todo. */
  lemma DelimiterIsNotTodo(line: string)
    requires IsFrontmatterDelimiter(line)
    ensures !IsTodoLine(line)
  {
  }

  /** Text appended after a checkbox prefix does not disturb it. */
  lemma CheckboxPrefixExtends(t: string, u: string)
    requires HasCheckboxPrefix(t)
    ensures HasCheckboxPrefix(t + u)
  {
    var w := t + u;
    TabRunSlice(w, 0, |t|, 0);
    assert w[0..|t|] == t;
  }

  /** Cutting the text after its checkbox does not disturb it. */
  lemma CheckboxPrefixShortens(t: string, e: nat)
    requires HasCheckboxPrefix(t)
    requires TabRun(t, 0) + 5 <= e <= |t|
    ensures HasCheckboxPrefix(t[..e])
  {
    TabRunSlice(t, 0, e, 0);
    assert t[0..e] == t[..e];
  }

  /** `trimEnd` keeps a checkbox prefix, since `]` is not whitespace. */
  lemma CheckboxPrefixSurvivesTrimEnd(t: string)
    requires HasCheckboxPrefix(t)
    ensures HasCheckboxPrefix(TrimEnd(t))
  {
    var r := TrimEnd(t);
    var k := TabRun(t, 0);
    TrimEndSpec(t);
    assert !IsJsSpace(t[k + 4]);
    assert k + 5 <= |r|;
    assert r == t[..|r|];
    CheckboxPrefixShortens(t, |r|);
  }
}
