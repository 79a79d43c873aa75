// The zip-slip gate: a stored entry path is cleaned lexically, and accepted exactly when walking it
// from the extraction directory never leaves that directory.
module ArchivePaths {
  import opened Text

  const SLASH := '/'

  /** Lexical normalisation of a relative path: empty and "." components vanish, ".." takes back the
      component before it. */
  function Normal(raw: seq<string>): seq<string> {
    if raw == [] then []
    else
      var done, c := Normal(raw[..|raw| - 1]), raw[|raw| - 1];
      if c == "" || c == "." then done
      else if c == ".." && done != [] && done[|done| - 1] != ".." then done[..|done| - 1]
      else done + [c]
  }

  /** The components of a stored path after cleaning. */
  function Parts(stored: string): seq<string> { Normal(Split(stored, SLASH)) }

  /** QDir::cleanPath() of a non-empty relative path. */
  function CleanPath(stored: string): string
  {
    if Parts(stored) == [] then "." else Join(Parts(stored), SLASH)
  }

  datatype Verdict = Safe | EmptyName | AbsolutePath | DriveLetter | ParentEscape | DotComponent

  /** safeRelativePath() */
  function SafeRelativePath(stored: string, isLetter: char -> bool): Verdict {
    if stored == "" then EmptyName
    else if stored[0] == '/' || stored[0] == '\\' then AbsolutePath
    else if |stored| >= 2 && stored[1] == ':' && isLetter(stored[0]) then DriveLetter
    else if CleanPath(stored) == "." then EmptyName
    else if ".." in Split(CleanPath(stored), SLASH) then ParentEscape
    else if "." in Split(CleanPath(stored), SLASH) then DotComponent
    else Safe
  }

  /** A component that names a file or directory. */
  predicate Ordinary(c: string) {
    c != "" && c != "." && c != ".." && SLASH !in c
  }

  predicate AllOrdinary(parts: seq<string>) {
    forall i :: 0 <= i < |parts| ==> Ordinary(parts[i])
  }

  // ----- walking a path -------------------------------------------------------------------

  /** Following the components one by one from an absolute position, as a file system does. */
  function Walk(base: seq<string>, raw: seq<string>): seq<string> {
    if raw == [] then base
    else
      var at, c := Walk(base, raw[..|raw| - 1]), raw[|raw| - 1];
      if c == "" || c == "." then at
      else if c == ".." then (if at == [] then [] else at[..|at| - 1])
      else at + [c]
  }

  /** Somewhere on the way the walk is above its starting directory. */
  ghost predicate Dips(base: seq<string>, raw: seq<string>) {
    exists k: nat :: DipsAt(base, raw, k)
  }

  predicate DipsAt(base: seq<string>, raw: seq<string>, k: nat) {
    k <= |raw| && |Walk(base, raw[..k])| < |base|
  }

  lemma DipsPrefix(base: seq<string>, raw: seq<string>)
    requires raw != []
    ensures Dips(base, raw) <==> Dips(base, raw[..|raw| - 1]) || |Walk(base, raw)| < |base|
  {
    var n := |raw| - 1;
    assert raw[..|raw|] == raw;
    if k: nat :| DipsAt(base, raw, k) && k <= n {
      assert raw[..n][..k] == raw[..k];
      assert DipsAt(base, raw[..n], k);
    }
    if k: nat :| DipsAt(base, raw[..n], k) {
      assert raw[..n][..k] == raw[..k];
      assert DipsAt(base, raw, k);
    }
    if |Walk(base, raw)| < |base| {
      assert DipsAt(base, raw, |raw|);
    }
  }

  /** What survives cleaning: ordinary components, and ".." only when the walk dips. */
  lemma {:induction false} NormalIsWalk(base: seq<string>, raw: seq<string>)
    requires base != [] && forall i :: 0 <= i < |raw| ==> SLASH !in raw[i]
    ensures ".." in Normal(raw) <==> Dips(base, raw)
    ensures ".." !in Normal(raw) ==> AllOrdinary(Normal(raw)) && Walk(base, raw) == base + Normal(raw)
  {
    if raw != [] {
      var n := |raw| - 1;
      NormalIsWalk(base, raw[..n]);
      DipsPrefix(base, raw);
      NormalStep(base, raw[..n], raw[n], raw, Dips(base, raw[..n]));
    }
  }

  lemma NormalStep(base: seq<string>, front: seq<string>, c: string, raw: seq<string>, dipped: bool)
    requires base != [] && raw != [] && front == raw[..|raw| - 1] && c == raw[|raw| - 1] && SLASH !in c
    requires ".." in Normal(front) <==> dipped
    requires ".." !in Normal(front) ==> AllOrdinary(Normal(front)) && Walk(base, front) == base + Normal(front)
    ensures ".." in Normal(raw) <==> dipped || |Walk(base, raw)| < |base|
    ensures ".." !in Normal(raw) ==> AllOrdinary(Normal(raw)) && Walk(base, raw) == base + Normal(raw)
  {
    var done, now := Normal(front), Normal(raw);
    if ".." in done {
      var k :| 0 <= k < |done| && done[k] == "..";
      assert now[k] == "..";
    } else if c == ".." {
      if done == [] {
        assert now[0] == "..";
      } else {
        assert (base + done)[..|base + done| - 1] == base + done[..|done| - 1];
      }
    } else if c != "" && c != "." {
      assert base + done + [c] == base + (done + [c]);
      assert forall i :: 0 <= i < |now| ==> now[i] == if i < |done| then done[i] else c;
    }
  }

  /** The cleaned string splits back into the cleaned components. */
  lemma CleanSplits(stored: string)
    requires Parts(stored) != []
    ensures Split(CleanPath(stored), SLASH) == Parts(stored)
  {
    SplitIsExact(stored, SLASH);
    NormalNoSlash(Split(stored, SLASH));
    SplitOfJoin(Parts(stored), SLASH);
  }

  lemma {:induction false} NormalNoSlash(raw: seq<string>)
    requires forall i :: 0 <= i < |raw| ==> SLASH !in raw[i]
    ensures forall i :: 0 <= i < |Normal(raw)| ==> SLASH !in Normal(raw)[i]
    ensures forall i :: 0 <= i < |Normal(raw)| ==> Normal(raw)[i] != "" && Normal(raw)[i] != "."
  {
    if raw != [] { NormalNoSlash(raw[..|raw| - 1]); }
  }

  lemma CleanIsDot(stored: string)
    ensures CleanPath(stored) == "." <==> Parts(stored) == []
  {
    if Parts(stored) != [] && CleanPath(stored) == "." {
      CleanSplits(stored);
      SplitAppend("", ".", SLASH);
      assert "" + "." == ".";
      SplitIsExact(stored, SLASH);
      NormalNoSlash(Split(stored, SLASH));
    }
  }

  /** Exactly the entries are accepted that are relative, carry no drive letter, and lead from the
      extraction directory, without ever leaving it, to a place below it. */
  lemma AcceptedIff(stored: string, isLetter: char -> bool, base: seq<string>)
    requires base != []
    ensures SafeRelativePath(stored, isLetter) == Safe <==>
            && stored != "" && stored[0] != '/' && stored[0] != '\\'
            && !(|stored| >= 2 && stored[1] == ':' && isLetter(stored[0]))
            && !Dips(base, Split(stored, SLASH))
            && Walk(base, Split(stored, SLASH)) != base
  {
    SplitIsExact(stored, SLASH);
    NormalIsWalk(base, Split(stored, SLASH));
    CleanIsDot(stored);
    if Parts(stored) != [] {
      CleanSplits(stored);
      NormalNoSlash(Split(stored, SLASH));
      assert |base + Parts(stored)| > |base|;
    } else {
      assert base + Parts(stored) == base;
    }
  }

  /** An accepted entry is written at the place the walk leads to, through ordinary components. */
  lemma AcceptedPath(stored: string, isLetter: char -> bool, base: seq<string>)
    requires base != [] && SafeRelativePath(stored, isLetter) == Safe
    ensures Parts(stored) != [] && AllOrdinary(Parts(stored))
    ensures Walk(base, Split(stored, SLASH)) == base + Parts(stored)
    ensures Split(CleanPath(stored), SLASH) == Parts(stored)
  {
    AcceptedIff(stored, isLetter, base);
    SplitIsExact(stored, SLASH);
    NormalIsWalk(base, Split(stored, SLASH));
    assert base + [] == base;
    CleanSplits(stored);
  }
}
