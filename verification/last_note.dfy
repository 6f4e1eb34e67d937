/** Choosing yesterday's note: among the loaded files inside the daily
    notes folder whose name parses, under the date format, to a day no
    later than today, sorted newest first (a stable sort), the second one.
    Today's freshly created note is normally the first. */
module LastNote {
  import opened Wrappers
  import opened Sequences

  /** A date parsed from a file name: its calendar day and its instant
      (`valueOf()`, milliseconds). */
  datatype Parsed = Parsed(day: int, instant: int)

  /** A loaded vault entry; `parsed` is `None` when the name is not a valid
      date under the format. */
  datatype VaultFile = VaultFile(isNote: bool, path: string, parsed: Option<Parsed>)

  predicate IsPrefix(p: string, s: string) {
    |p| <= |s| && s[..|p|] == p
  }

  /** A file considered: a note in the folder dated today or earlier. */
  predicate IsCandidate(f: VaultFile, folder: string, today: int) {
    f.isNote && IsPrefix(folder, f.path) && f.parsed.Some? && f.parsed.value.day <= today
  }

  /** The two `filter`s and the `forEach` of `getLastDailyNote`: exactly
      the files that qualify, in vault order. */
  function Candidates(files: seq<VaultFile>, folder: string, today: int): (r: seq<VaultFile>)
    ensures forall k :: 0 <= k < |r| ==> r[k] in files && IsCandidate(r[k], folder, today)
    ensures forall f :: f in files && IsCandidate(f, folder, today) ==> f in r
    ensures IsSubsequence(r, files)
  {
    if files == [] then []
    else
      var rest := Candidates(files[1..], folder, today);
      if IsCandidate(files[0], folder, today) then
        assert ([files[0]] + rest)[1..] == rest;
        [files[0]] + rest
      else
        rest
  }

  function Instant(f: VaultFile): int {
    if f.parsed.Some? then f.parsed.value.instant else 0
  }

  predicate NewestFirst(s: seq<VaultFile>) {
    forall i, j :: 0 <= i < j < |s| ==> Instant(s[i]) >= Instant(s[j])
  }

  /** Insert `f` before the first file that is not newer, so that among
      equal instants the earlier input stays first. */
  function InsertNewestFirst(f: VaultFile, s: seq<VaultFile>): seq<VaultFile> {
    if s == [] || Instant(s[0]) <= Instant(f) then [f] + s
    else [s[0]] + InsertNewestFirst(f, s[1..])
  }

  function SortNewestFirst(s: seq<VaultFile>): seq<VaultFile> {
    if s == [] then [] else InsertNewestFirst(s[0], SortNewestFirst(s[1..]))
  }

  lemma {:induction false} InsertKeepsFiles(f: VaultFile, s: seq<VaultFile>)
    ensures multiset(InsertNewestFirst(f, s)) == multiset(s) + multiset{f}
    ensures |InsertNewestFirst(f, s)| == |s| + 1
  {
    if s != [] && Instant(s[0]) > Instant(f) {
      InsertKeepsFiles(f, s[1..]);
      assert s == [s[0]] + s[1..];
    }
  }

  /** A list is newest first when its tail is and its head is at least as
      new as everything in the tail. */
  lemma NewestFirstCons(a: VaultFile, t: seq<VaultFile>)
    requires NewestFirst(t)
    requires forall x :: x in t ==> Instant(x) <= Instant(a)
    ensures NewestFirst([a] + t)
  {
    var r := [a] + t;
    forall i, j | 0 <= i < j < |r| ensures Instant(r[i]) >= Instant(r[j]) {
      if i == 0 {
        assert r[j] == t[j - 1];
        assert r[j] in t;
      } else {
        assert r[i] == t[i - 1] && r[j] == t[j - 1];
      }
    }
  }

  lemma {:induction false} InsertKeepsOrder(f: VaultFile, s: seq<VaultFile>)
    requires NewestFirst(s)
    ensures NewestFirst(InsertNewestFirst(f, s))
  {
    if s == [] || Instant(s[0]) <= Instant(f) {
      forall x | x in s ensures Instant(x) <= Instant(f) {
        var k :| 0 <= k < |s| && s[k] == x;
        assert Instant(s[0]) >= Instant(s[k]) || k == 0;
      }
      NewestFirstCons(f, s);
    } else {
      var rest := InsertNewestFirst(f, s[1..]);
      assert NewestFirst(s[1..]) by {
        forall i, j | 0 <= i < j < |s[1..]| ensures Instant(s[1..][i]) >= Instant(s[1..][j]) {
          assert s[1..][i] == s[i + 1] && s[1..][j] == s[j + 1];
        }
      }
      InsertKeepsOrder(f, s[1..]);
      InsertKeepsFiles(f, s[1..]);
      forall x | x in rest ensures Instant(x) <= Instant(s[0]) {
        assert x in multiset(rest);
        if x != f {
          assert x in multiset(s[1..]);
          var k :| 0 <= k < |s[1..]| && s[1..][k] == x;
          assert s[1..][k] == s[k + 1];
        }
      }
      NewestFirstCons(s[0], rest);
    }
  }

  /** The sort puts the files newest first and keeps each of them. */
  lemma {:induction false} SortIsOrderedPermutation(s: seq<VaultFile>)
    ensures NewestFirst(SortNewestFirst(s))
    ensures multiset(SortNewestFirst(s)) == multiset(s)
    ensures |SortNewestFirst(s)| == |s|
  {
    SortIsOrdered(s);
    SortKeepsFiles(s);
  }

  lemma {:induction false} SortIsOrdered(s: seq<VaultFile>)
    ensures NewestFirst(SortNewestFirst(s))
  {
    if s != [] {
      SortIsOrdered(s[1..]);
      InsertKeepsOrder(s[0], SortNewestFirst(s[1..]));
    }
  }

  lemma {:induction false} SortKeepsFiles(s: seq<VaultFile>)
    ensures multiset(SortNewestFirst(s)) == multiset(s)
    ensures |SortNewestFirst(s)| == |s|
  {
    if s != [] {
      SortKeepsFiles(s[1..]);
      InsertKeepsFiles(s[0], SortNewestFirst(s[1..]));
      assert s == [s[0]] + s[1..];
    }
  }


  /** The files of `s` whose instant is `t`, in order. */
  function WithInstant(s: seq<VaultFile>, t: int): seq<VaultFile> {
    if s == [] then []
    else (if Instant(s[0]) == t then [s[0]] else []) + WithInstant(s[1..], t)
  }

  lemma {:induction false} WithInstantCons(f: VaultFile, s: seq<VaultFile>, t: int)
    ensures WithInstant([f] + s, t) == (if Instant(f) == t then [f] else []) + WithInstant(s, t)
  {
    assert ([f] + s)[1..] == s;
  }

  /** Inserting a file keeps the relative order of the files that share
      its instant: it goes after the strictly newer ones only. */
  lemma {:induction false} InsertIsStable(f: VaultFile, s: seq<VaultFile>, t: int)
    ensures WithInstant(InsertNewestFirst(f, s), t) == (if Instant(f) == t then [f] else []) + WithInstant(s, t)
  {
    if s == [] || Instant(s[0]) <= Instant(f) {
      WithInstantCons(f, s, t);
    } else {
      InsertIsStable(f, s[1..], t);
      WithInstantCons(s[0], InsertNewestFirst(f, s[1..]), t);
      WithInstantCons(s[0], s[1..], t);
      assert [s[0]] + s[1..] == s;
    }
  }

  /** The sort is stable: the notes with any one instant come out in the
      order they were loaded in. */
  lemma {:induction false} SortIsStable(s: seq<VaultFile>, t: int)
    ensures WithInstant(SortNewestFirst(s), t) == WithInstant(s, t)
  {
    if s != [] {
      SortIsStable(s[1..], t);
      InsertIsStable(s[0], SortNewestFirst(s[1..]), t);
      WithInstantCons(s[0], s[1..], t);
      assert [s[0]] + s[1..] == s;
    }
  }

  /** `sorted[1]`, or nothing when fewer than two candidates remain. */
  function LastDailyNote(files: seq<VaultFile>, folder: string, today: int): Option<VaultFile> {
    var sorted := SortNewestFirst(Candidates(files, folder, today));
    if |sorted| >= 2 then Some(sorted[1]) else None
  }

  /** The chosen note is a candidate; it exists exactly when there are two
      candidates; one candidate is at least as new, and every candidate
      after it in the order is at most as new. */
  lemma LastDailyNoteIsSecondNewest(files: seq<VaultFile>, folder: string, today: int)
    ensures var cands := Candidates(files, folder, today);
      var r := LastDailyNote(files, folder, today);
      && (r.Some? <==> |cands| >= 2)
      && (r.Some? ==>
            && r.value in files && IsCandidate(r.value, folder, today)
            && multiset(SortNewestFirst(cands)) == multiset(cands)
            && SortNewestFirst(cands)[1] == r.value
            && Instant(SortNewestFirst(cands)[0]) >= Instant(r.value)
            && (forall k :: 1 <= k < |SortNewestFirst(cands)| ==> Instant(SortNewestFirst(cands)[k]) <= Instant(r.value)))
  {
    var cands := Candidates(files, folder, today);
    var sorted := SortNewestFirst(cands);
    SortIsOrderedPermutation(cands);
    if |sorted| >= 2 {
      assert sorted[1] in multiset(cands);
      assert sorted[1] in cands;
    }
  }

  /** A note dated in the future is never chosen. */
  lemma FutureNotesIgnored(files: seq<VaultFile>, folder: string, today: int)
    ensures var r := LastDailyNote(files, folder, today);
      r.Some? ==> r.value.parsed.Some? && r.value.parsed.value.day <= today
  {
    LastDailyNoteIsSecondNewest(files, folder, today);
  }
}
