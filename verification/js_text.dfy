/** The JavaScript string primitives the rollover pipeline relies on:
    the character classes of `\s` and `.` in a regular expression,
    `trim`/`trimEnd`, `split("\n")`/`join`, `indexOf`, the UTF-16 `length`
    and the decimal rendering of a count in a template literal. */
module JsText {
  import opened Wrappers

  /** ECMAScript LineTerminator: the characters `.` refuses to match. */
  predicate IsLineTerminator(c: char) {
    c == '\n' || c == '\r' || c == '\U{2028}' || c == '\U{2029}'
  }

  /** ECMAScript WhiteSpace and LineTerminator: the characters `\s` matches
      and `trim`/`trimEnd` strip. */
  predicate IsJsSpace(c: char) {
    || IsLineTerminator(c)
    || c == '\t' || c == '\U{000B}' || c == '\U{000C}' || c == ' '
    || c == '\U{00A0}' || c == '\U{1680}' || ('\U{2000}' <= c <= '\U{200A}')
    || c == '\U{202F}' || c == '\U{205F}' || c == '\U{3000}' || c == '\U{FEFF}'
  }

  /** `s.trimEnd()` */
  function TrimEnd(s: string): string {
    if s != [] && IsJsSpace(s[|s| - 1]) then TrimEnd(s[..|s| - 1]) else s
  }

  /** `trimEnd` removes the maximal whitespace suffix: what it returns is a
      prefix that does not end in whitespace, and everything it removed is
      whitespace. */
  lemma {:induction false} TrimEndSpec(s: string)
    ensures TrimEnd(s) <= s
    ensures |TrimEnd(s)| > 0 ==> !IsJsSpace(TrimEnd(s)[|TrimEnd(s)| - 1])
    ensures forall i :: |TrimEnd(s)| <= i < |s| ==> IsJsSpace(s[i])
  {
    if s != [] && IsJsSpace(s[|s| - 1]) {
      TrimEndSpec(s[..|s| - 1]);
    }
  }

  /** Trimming twice trims nothing more. */
  lemma TrimEndIdempotent(s: string)
    ensures TrimEnd(TrimEnd(s)) == TrimEnd(s)
  {
    TrimEndSpec(s);
  }

  /** The leading-whitespace half of `s.trim()`. */
  function TrimStart(s: string): string {
    if s != [] && IsJsSpace(s[0]) then TrimStart(s[1..]) else s
  }

  /** The leading half of `trim` removes the maximal whitespace prefix. */
  lemma {:induction false} TrimStartSpec(s: string)
    ensures |TrimStart(s)| <= |s| && TrimStart(s) == s[|s| - |TrimStart(s)|..]
    ensures |TrimStart(s)| > 0 ==> !IsJsSpace(TrimStart(s)[0])
    ensures forall i :: 0 <= i < |s| - |TrimStart(s)| ==> IsJsSpace(s[i])
  {
    if s != [] && IsJsSpace(s[0]) {
      TrimStartSpec(s[1..]);
    }
  }

  /** `s.trim()` */
  function Trim(s: string): string {
    TrimStart(TrimEnd(s))
  }

  /** `s.split("\n")`: the maximal newline-free pieces between newlines. */
  function Lines(s: string): (r: seq<string>)
    ensures |r| >= 1
    ensures forall k :: 0 <= k < |r| ==> '\n' !in r[k]
  {
    if s == [] then [[]]
    else if s[0] == '\n' then [[]] + Lines(s[1..])
    else
      var rest := Lines(s[1..]);
      [[s[0]] + rest[0]] + rest[1..]
  }

  /** `parts.join(sep)` */
  function Join(parts: seq<string>, sep: string): string {
    if |parts| == 0 then []
    else if |parts| == 1 then parts[0]
    else parts[0] + sep + Join(parts[1..], sep)
  }

  /** Joining the lines of a text with newlines gives the text back. */
  lemma {:induction false} JoinLines(s: string)
    ensures Join(Lines(s), "\n") == s
  {
    if s == [] {
    } else if s[0] == '\n' {
      var rest := Lines(s[1..]);
      JoinLines(s[1..]);
      assert Lines(s) == [[]] + rest;
      assert Join(Lines(s), "\n") == [] + "\n" + Join(rest, "\n");
    } else {
      var rest := Lines(s[1..]);
      JoinLines(s[1..]);
      var r := Lines(s);
      assert r == [[s[0]] + rest[0]] + rest[1..];
      if |rest| == 1 {
        assert Join(r, "\n") == [s[0]] + rest[0];
      } else {
        assert r[1..] == rest[1..];
        assert Join(rest, "\n") == rest[0] + "\n" + Join(rest[1..], "\n");
        assert Join(r, "\n") == [s[0]] + rest[0] + "\n" + Join(rest[1..], "\n");
      }
      assert s == [s[0]] + s[1..];
    }
  }

  lemma {:induction false} LinesOfLine(a: string)
    requires '\n' !in a
    ensures Lines(a) == [a]
  {
    if a != [] {
      LinesOfLine(a[1..]);
      assert a == [a[0]] + a[1..];
    }
  }

  lemma {:induction false} LinesOfLineThenRest(a: string, b: string)
    requires '\n' !in a
    ensures Lines(a + "\n" + b) == [a] + Lines(b)
  {
    if a == [] {
      assert a + "\n" + b == "\n" + b;
      assert ("\n" + b)[1..] == b;
    } else {
      assert '\n' !in a[1..];
      LinesOfLineThenRest(a[1..], b);
      var s := a + "\n" + b;
      assert s[0] == a[0];
      assert s[1..] == a[1..] + "\n" + b;
      assert [a[0]] + a[1..] == a;
    }
  }

  /** Splitting newline-free lines joined by newlines gives the lines back. */
  lemma {:induction false} LinesJoin(ls: seq<string>)
    requires |ls| >= 1
    requires forall k :: 0 <= k < |ls| ==> '\n' !in ls[k]
    ensures Lines(Join(ls, "\n")) == ls
  {
    if |ls| == 1 {
      LinesOfLine(ls[0]);
    } else {
      LinesJoin(ls[1..]);
      LinesOfLineThenRest(ls[0], Join(ls[1..], "\n"));
      assert ls == [ls[0]] + ls[1..];
    }
  }

  /** `pat` occurs in `s` at index `j`. */
  predicate OccursAt(s: string, pat: string, j: nat) {
    j + |pat| <= |s| && s[j..j + |pat|] == pat
  }

  /** `s.indexOf(pat, from)`, returning `None` for -1. */
  function IndexOfFrom(s: string, pat: string, from: nat): (r: Option<nat>)
    requires from <= |s|
    ensures r.Some? ==> from <= r.value && OccursAt(s, pat, r.value)
    ensures r.Some? ==> forall j :: from <= j < r.value ==> !OccursAt(s, pat, j)
    ensures r.None? ==> forall j :: from <= j <= |s| ==> !OccursAt(s, pat, j)
    decreases |s| - from
  {
    if from + |pat| > |s| then None
    else if s[from..from + |pat|] == pat then Some(from)
    else if from == |s| then None
    else IndexOfFrom(s, pat, from + 1)
  }

  /** `s.indexOf(pat)`: the first occurrence, or `None` when there is none. */
  function IndexOf(s: string, pat: string): (r: Option<nat>)
    ensures r.Some? ==> OccursAt(s, pat, r.value)
    ensures r.Some? ==> forall j :: 0 <= j < r.value ==> !OccursAt(s, pat, j)
    ensures r.None? ==> forall j :: 0 <= j <= |s| ==> !OccursAt(s, pat, j)
  {
    IndexOfFrom(s, pat, 0)
  }

  /** `s.length`: JavaScript counts UTF-16 code units, so a character outside
      the Basic Multilingual Plane counts twice. */
  function Utf16Length(s: string): (r: nat)
    ensures |s| <= r <= 2 * |s|
    ensures (forall i :: 0 <= i < |s| ==> s[i] as int <= 0xFFFF) ==> r == |s|
  {
    if s == [] then 0
    else (if s[0] as int > 0xFFFF then 2 else 1) + Utf16Length(s[1..])
  }

  predicate IsDigit(c: char) {
    '0' as int <= c as int <= '9' as int
  }

  function DigitChar(d: nat): (c: char)
    requires d < 10
    ensures IsDigit(c) && DigitValue(c) == d
  {
    ['0', '1', '2', '3', '4', '5', '6', '7', '8', '9'][d]
  }

  function DigitValue(c: char): (d: nat)
    requires IsDigit(c)
    ensures d < 10
  {
    (c as int) - ('0' as int)
  }

  /** The value of a string of decimal digits. */
  function DecimalValue(s: string): nat
    requires forall i :: 0 <= i < |s| ==> IsDigit(s[i])
  {
    if s == [] then 0
    else
      assert IsDigit(s[|s| - 1]);
      10 * DecimalValue(s[..|s| - 1]) + DigitValue(s[|s| - 1])
  }

  /** `${n}` for a non-negative integer: its decimal digits, no leading zero. */
  function NatToString(n: nat): (r: string)
    ensures |r| >= 1
    ensures forall i :: 0 <= i < |r| ==> IsDigit(r[i])
    ensures |r| > 1 ==> r[0] != '0'
  {
    if n < 10 then [DigitChar(n)] else NatToString(n / 10) + [DigitChar(n % 10)]
  }

  /** Reading the rendered count back gives the count. */
  lemma {:induction false} NatToStringRoundTrip(n: nat)
    ensures DecimalValue(NatToString(n)) == n
  {
    var r := NatToString(n);
    if n >= 10 {
      NatToStringRoundTrip(n / 10);
      assert r[..|r| - 1] == NatToString(n / 10);
    }
  }
}
