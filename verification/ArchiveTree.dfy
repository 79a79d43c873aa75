// What an install leaves on disk, file by file.
module ArchiveTree {
  import opened Text
  import opened ArchivePaths
  import opened ArchiveInstall

  // ----- the extracted files ---------------------------------------------------------------

  predicate Writes(e: Entry, p: Path) { !e.isDir && Parts(e.path) == p }

  /** The last file entry that cleans to `p`. */
  ghost predicate LastWriter(entries: seq<Entry>, p: Path, i: nat) {
    i < |entries| && Writes(entries[i], p) && forall k :: i < k < |entries| ==> !Writes(entries[k], p)
  }

  /** The last writer among the first `n` entries, or -1. */
  function Writer(entries: seq<Entry>, n: nat, p: Path): int
    requires n <= |entries|
  {
    if n == 0 then -1 else if Writes(entries[n - 1], p) then n - 1 else Writer(entries, n - 1, p)
  }

  lemma {:induction false} WriterIsLast(entries: seq<Entry>, n: nat, p: Path)
    requires n <= |entries|
    ensures -1 <= Writer(entries, n, p) < n
    ensures Writer(entries, n, p) >= 0 ==> Writes(entries[Writer(entries, n, p)], p)
    ensures forall k :: Writer(entries, n, p) < k < n ==> !Writes(entries[k], p)
  {
    if n > 0 { WriterIsLast(entries, n - 1, p); }
  }

  lemma {:induction false} ExtractedByWriter(entries: seq<Entry>, content: string -> Bytes, n: nat, p: Path)
    requires n <= |entries|
    ensures -1 <= Writer(entries, n, p) < n
    ensures p in Extracted(entries[..n], content) <==> Writer(entries, n, p) >= 0
    ensures Writer(entries, n, p) >= 0 ==>
              Extracted(entries[..n], content)[p] == content(entries[Writer(entries, n, p)].path)
  {
    WriterIsLast(entries, n, p);
    if n > 0 {
      ExtractedByWriter(entries, content, n - 1, p);
      assert entries[..n][..n - 1] == entries[..n - 1];
      assert entries[..n][n - 1] == entries[n - 1];
    }
  }

  /** A path is extracted exactly when some file entry cleans to it, with the data of the last one. */
  lemma ExtractedIsLast(entries: seq<Entry>, content: string -> Bytes, p: Path)
    ensures p in Extracted(entries, content) <==> exists i: nat :: LastWriter(entries, p, i)
    ensures forall i: nat :: LastWriter(entries, p, i) ==> Extracted(entries, content)[p] == content(entries[i].path)
  {
    var w := Writer(entries, |entries|, p);
    WriterIsLast(entries, |entries|, p);
    ExtractedByWriter(entries, content, |entries|, p);
    assert entries[..|entries|] == entries;
    assert w >= 0 ==> LastWriter(entries, p, w);
    forall i: nat | LastWriter(entries, p, i) ensures i == w {
    }
  }

  /** Every extracted path starts with the item and runs through ordinary components. */
  lemma ExtractedBelowItem(a: Archive, target: Target, isLetter: char -> bool, item: string, p: Path)
    requires Accepted(a, target, isLetter, item) && p in Extracted(a.entries, a.content)
    ensures p != [] && p[0] == item && AllOrdinary(p)
  {
    ExtractedIsLast(a.entries, a.content, p);
    var i: nat :| LastWriter(a.entries, p, i);
    var e := a.entries[i];
    AcceptedPath(e.path, isLetter, ["base"]);
    assert TopName(e) == p[0] && p[0] != "";
    assert e in a.entries && TopName(e) in TopNames(a.entries);
  }

  // ----- the tree after a successful install -----------------------------------------------

  ghost predicate UnderItem(files: Tree, item: string) {
    forall p :: p in files ==> p != [] && p[0] == item
  }

  lemma ExtractedUnderItem(a: Archive, target: Target, isLetter: char -> bool, item: string)
    requires Accepted(a, target, isLetter, item)
    ensures UnderItem(Extracted(a.entries, a.content), item)
  {
    forall p | p in Extracted(a.entries, a.content) ensures p != [] && p[0] == item {
      ExtractedBelowItem(a, target, isLetter, item, p);
    }
  }

  lemma PlacedStarts(root: Path, item: string, files: Tree, p: Path)
    requires UnderItem(files, item)
    ensures p in Placed(root, files) ==> Below(p, root + [item])
  {
    if p in Placed(root, files) {
      var f :| f in files && p == root + f;
      assert p[..|root| + 1] == root + [item];
    }
  }

  /** Outside the item directory nothing changes. */
  lemma OutsideUntouched(a: Archive, target: Target, world: World, root: Path, item: string, t: Tree, q: Path)
    requires Accepted(a, target, world.isLetter, item) && !Below(q, root + [item])
    ensures var t' := After(t, root, item, Extracted(a.entries, a.content));
            (q in t' <==> q in t) && (q in t ==> t'[q] == t[q])
  {
    ExtractedUnderItem(a, target, world.isLetter, item);
    PlacedStarts(root, item, Extracted(a.entries, a.content), q);
  }

  /** Inside the item directory exactly the archive's files remain, each with the data of the last
      entry for its path. */
  lemma InsideReplaced(a: Archive, root: Path, item: string, t: Tree, p: Path)
    requires p != [] && p[0] == item && a.Archive?
    ensures var t' := After(t, root, item, Extracted(a.entries, a.content));
            && (root + p in t' <==> exists i: nat :: LastWriter(a.entries, p, i))
            && forall i: nat :: LastWriter(a.entries, p, i) ==>
                                  root + p in t' && t'[root + p] == a.content(a.entries[i].path)
  {
    assert (root + p)[..|root| + 1] == root + [item];
    ExtractedIsLast(a.entries, a.content, p);
    PlacedAt(root, Extracted(a.entries, a.content), p);
  }

  lemma PlacedAt(root: Path, files: Tree, p: Path)
    ensures root + p in Placed(root, files) <==> p in files
    ensures p in files ==> Placed(root, files)[root + p] == files[p]
  {
    assert (root + p)[|root|..] == p;
    if root + p in Placed(root, files) {
      var q :| q in files && root + q == root + p;
      assert (root + q)[|root|..] == q;
    }
  }

  // ----- no file inside a file --------------------------------------------------------------

  /** A sound extraction never puts a file inside another. */
  lemma {:induction false} ExtractedIsTree(a: Archive, writes: nat -> bool, n: nat)
    requires a.Archive? && n <= |a.entries| && AllExtract(a, writes)
    ensures IsTree(Extracted(a.entries[..n], a.content))
  {
    if n > 0 {
      ExtractedIsTree(a, writes, n - 1);
      assert a.entries[..n][..n - 1] == a.entries[..n - 1];
      var e, before := a.entries[n - 1], Extracted(a.entries[..n - 1], a.content);
      assert Extracts(a, writes, n - 1);
      if !e.isDir {
        AddFits(before, Parts(e.path), a.content(e.path));
      }
    }
  }

  lemma AddFits(t: Tree, p: Path, data: Bytes)
    requires IsTree(t) && Fits(t, p)
    ensures IsTree(t[p := data])
  {
    var more := t[p := data];
    forall q | q in more ensures Fits(more, q) {
      if q != p { assert Fits(t, q); }
    }
  }

  lemma PrefixShift(root: Path, f: Path, g: Path)
    ensures ProperPrefix(root + f, root + g) ==> ProperPrefix(f, g)
  {
    if ProperPrefix(root + f, root + g) {
      assert (root + f)[|root|..] == f && (root + g)[|root|..] == g;
      assert g[..|f|] == (root + g)[..|root + f|][|root|..];
    }
  }

  lemma BelowExtends(p: Path, q: Path, dir: Path)
    requires Below(p, dir)
    ensures ProperPrefix(p, q) ==> Below(q, dir)
  {
    if ProperPrefix(p, q) { assert q[..|dir|] == q[..|p|][..|dir|]; }
  }

  /** A proper prefix of something in the item directory is in it, or on the way to it. */
  lemma PrefixOfBelow(p: Path, q: Path, root: Path, item: string)
    requires Below(q, root + [item])
    ensures ProperPrefix(p, q) ==> Below(p, root + [item]) || Below(root, p)
  {
    if ProperPrefix(p, q) {
      var dst := root + [item];
      if |p| <= |root| {
        assert root[..|p|] == dst[..|p|] == q[..|p|];
      } else {
        assert p[..|dst|] == q[..|dst|];
      }
    }
  }

  /** An install keeps the disk a tree: nothing ends up inside a file. */
  lemma InstallKeepsTree(t: Tree, root: Path, item: string, files: Tree, world: World)
    requires IsTree(t) && IsTree(files) && UnderItem(files, item) && Moves(t, root, item, files, world)
    ensures IsTree(After(t, root, item, files))
  {
    var t' := After(t, root, item, files);
    forall p, q | p in t' && q in t' ensures !ProperPrefix(p, q) {
      NoPrefix(t, root, item, files, world, p, q);
    }
    forall p | p in t' ensures Fits(t', p) {
    }
  }

  lemma NoPrefix(t: Tree, root: Path, item: string, files: Tree, world: World, p: Path, q: Path)
    requires IsTree(t) && IsTree(files) && UnderItem(files, item) && Moves(t, root, item, files, world)
    requires p in After(t, root, item, files) && q in After(t, root, item, files)
    ensures !ProperPrefix(p, q)
  {
    var dst := root + [item];
    PlacedStarts(root, item, files, p);
    PlacedStarts(root, item, files, q);
    if p in Placed(root, files) {
      if q in Placed(root, files) {
        var f :| f in files && p == root + f;
        var g :| g in files && q == root + g;
        PrefixShift(root, f, g);
        assert Fits(files, f);
      } else {
        BelowExtends(p, q, dst);
      }
    } else if q in Placed(root, files) {
      PrefixOfBelow(p, q, root, item);
    } else {
      assert Fits(t, p);
    }
  }

  // ----- directory entries --------------------------------------------------------------------

  /** The same archive with some entries flagged as directories. */
  function Flagged(a: Archive, dirs: Entry -> bool): Archive
    requires a.Archive?
  {
    Archive(seq(|a.entries|, i requires 0 <= i < |a.entries| =>
                  a.entries[i].(isDir := a.entries[i].isDir || dirs(a.entries[i]))),
            a.content)
  }

  ghost predicate SamePaths(a: seq<Entry>, b: seq<Entry>) {
    |a| == |b| && forall i :: 0 <= i < |a| ==> a[i].path == b[i].path
  }

  lemma SameTopNames(a: seq<Entry>, b: seq<Entry>)
    requires SamePaths(a, b)
    ensures TopNames(a) <= TopNames(b)
  {
    forall name | name in TopNames(a) ensures name in TopNames(b) {
      var e :| e in a && TopName(e) == name && name != "";
      var i :| 0 <= i < |a| && a[i] == e;
      assert b[i] in b && TopName(b[i]) == name;
    }
  }

  lemma SameHasPath(a: seq<Entry>, b: seq<Entry>, clean: string)
    requires SamePaths(a, b) && HasPath(a, clean)
    ensures HasPath(b, clean)
  {
    var i :| 0 <= i < |a| && CleanPath(a[i].path) == clean;
    assert CleanPath(b[i].path) == clean;
  }

  lemma SameSafe(a: seq<Entry>, b: seq<Entry>, isLetter: char -> bool)
    requires SamePaths(a, b) && AllSafe(a, isLetter)
    ensures AllSafe(b, isLetter)
  {
    forall i | 0 <= i < |b| ensures SafeRelativePath(b[i].path, isLetter) == Safe {
      assert SafeRelativePath(a[i].path, isLetter) == Safe;
    }
  }

  /** Acceptance does not look at directory flags, so a directory can pass for the sentinel. */
  lemma AcceptanceIgnoresDirs(a: Archive, dirs: Entry -> bool, target: Target, isLetter: char -> bool, item: string)
    requires Accepted(a, target, isLetter, item)
    ensures Accepted(Flagged(a, dirs), target, isLetter, item)
  {
    var b := Flagged(a, dirs);
    SameSafe(a.entries, b.entries, isLetter);
    SameTopNames(a.entries, b.entries);
    SameTopNames(b.entries, a.entries);
    SameHasPath(a.entries, b.entries, Join(Sentinel(target, item), SLASH));
  }

  /** The installed item holds the sentinel file exactly when a file entry of the archive is it. */
  lemma SentinelInstalledIff(a: Archive, target: Target, root: Path, item: string, t: Tree)
    requires a.Archive?
    ensures root + Sentinel(target, item) in After(t, root, item, Extracted(a.entries, a.content)) <==>
            exists i :: 0 <= i < |a.entries| && Writes(a.entries[i], Sentinel(target, item))
  {
    var p := Sentinel(target, item);
    InsideReplaced(a, root, item, t, p);
    if i :| 0 <= i < |a.entries| && Writes(a.entries[i], p) {
      SomeWriterIsLast(a.entries, p, i);
    }
  }

  lemma {:induction false} SomeWriterIsLast(entries: seq<Entry>, p: Path, i: nat)
    requires i < |entries| && Writes(entries[i], p)
    ensures exists j: nat :: LastWriter(entries, p, j)
    decreases |entries| - i
  {
    if k: nat :| i < k < |entries| && Writes(entries[k], p) {
      SomeWriterIsLast(entries, p, k);
    } else {
      assert LastWriter(entries, p, i);
    }
  }

  function Everything(e: Entry): bool { true }

  /** An archive of directories only is accepted and extracts without a fault, but nothing can be
      moved, after the old item is gone already. */
  lemma OnlyDirectories(a: Archive, target: Target, world: World, root: Path, item: string, t: Tree)
    requires Ready(a, target, world, item)
    ensures var b := Flagged(a, Everything);
            && Ready(b, target, world, item)
            && Extracted(b.entries, b.content) == map[]
            && !Succeeds(b, target, world, root, t)
            && Installed(b, target, world, root, t) ==
               if root + [item] in t then t else Cleared(t, root + [item])
  {
    var b := Flagged(a, Everything);
    FlaggedReady(a, target, world, item);
    NothingExtracted(b.entries, b.content);
    SucceedsHere(b, target, world, root, t, item);
    InstalledItem(b, target, world, root, t, item);
  }

  lemma FlaggedReady(a: Archive, target: Target, world: World, item: string)
    requires Ready(a, target, world, item)
    ensures var b := Flagged(a, Everything);
            Ready(b, target, world, item) && forall i :: 0 <= i < |b.entries| ==> b.entries[i].isDir
  {
    var b := Flagged(a, Everything);
    AcceptanceIgnoresDirs(a, Everything, target, world.isLetter, item);
    forall i | 0 <= i < |b.entries| ensures b.entries[i].isDir {
      assert Everything(a.entries[i]);
    }
  }

  lemma {:induction false} NothingExtracted(entries: seq<Entry>, content: string -> Bytes)
    requires forall i :: 0 <= i < |entries| ==> entries[i].isDir
    ensures Extracted(entries, content) == map[]
  {
    if entries != [] { NothingExtracted(entries[..|entries| - 1], content); }
  }

  // ----- what an install needs --------------------------------------------------------------------

  /** Only an archive all of whose files decompress is installed, over no file and under no file, with at
      least one file in it. */
  lemma InstallNeeds(a: Archive, target: Target, world: World, root: Path, t: Tree, item: string)
    requires Ready(a, target, world, item) && Succeeds(a, target, world, root, t)
    ensures forall i :: 0 <= i < |a.entries| && !a.entries[i].isDir ==>
              world.writes(i) && (a.content(a.entries[i].path) != [] || a.entries[i].uncompressedSize == 0)
    ensures exists i :: 0 <= i < |a.entries| && !a.entries[i].isDir
    ensures world.finished && target != NotAllowed && world.ownerOk && world.tempOk
    ensures forall i :: 0 <= i < |a.entries| ==> SafeRelativePath(a.entries[i].path, world.isLetter) == Safe
    ensures root + [item] !in t && world.moves && forall k :: 0 <= k <= |root| ==> root[..k] !in t
  {
    SucceedsHere(a, target, world, root, t, item);
    forall i | 0 <= i < |a.entries| && !a.entries[i].isDir
      ensures world.writes(i) && (a.content(a.entries[i].path) != [] || a.entries[i].uncompressedSize == 0)
    {
      assert Extracts(a, world.writes, i);
    }
    if forall i :: 0 <= i < |a.entries| ==> a.entries[i].isDir {
      NothingExtracted(a.entries, a.content);
    }
    forall k | 0 <= k <= |root| ensures root[..k] !in t {
      assert Below(root, root[..k]);
    }
  }

  // ----- a voice pack that is lost ------------------------------------------------------------

  /** An item name that cannot be taken for a root or a drive. */
  predicate Plain(item: string) {
    Ordinary(item) && item[0] != '\\' && (|item| > 1 ==> item[1] != ':')
  }

  /** An archive of one file. */
  function Pack(stored: string): Archive {
    Archive([Entry(stored, false, 1)], (path: string) => [0])
  }

  /** One file is enough, when it is the sentinel and stored under a safe path. */
  lemma PackAccepted(stored: string, target: Target, isLetter: char -> bool, item: string)
    requires Parts(stored) == Sentinel(target, item) && SafeRelativePath(stored, isLetter) == Safe
    ensures Accepted(Pack(stored), target, isLetter, item)
  {
    AcceptedPath(stored, isLetter, ["base"]);
    PackNames(stored, item);
    assert CleanPath(Pack(stored).entries[0].path) == Join(Sentinel(target, item), SLASH);
  }

  lemma PackNames(stored: string, item: string)
    requires Split(CleanPath(stored), SLASH)[0] == item && item != ""
    ensures TopNames(Pack(stored).entries) == {item}
  {
    assert Pack(stored).entries[0] in Pack(stored).entries;
  }

  lemma TwoParts(x: string, y: string)
    requires Ordinary(x) && Ordinary(y)
    ensures Parts(x + [SLASH] + y) == [x, y]
  {
    var parts := [x, y];
    assert parts[..1] == [x] && [x][..0] == [];
    assert Join([x], SLASH) == x;
    assert Join(parts, SLASH) == x + [SLASH] + y;
    SplitOfJoin(parts, SLASH);
    assert Normal([]) == [] && Normal([x]) == [x];
    assert Normal(parts) == parts;
  }

  lemma JoinTwo(x: string, y: string)
    ensures Join([x, y], SLASH) == x + [SLASH] + y
  {
    assert [x, y][..1] == [x];
    assert Join([x], SLASH) == x;
  }

  /** Which single file makes an archive acceptable: meta.mko for a voice pack, and a file named after the
      item for a model. */
  lemma SoleFileAcceptedIff(item: string, leaf: string, target: Target, isLetter: char -> bool)
    requires Plain(item) && Ordinary(leaf)
    ensures Accepted(Pack(item + [SLASH] + leaf), target, isLetter, item) <==>
            leaf == if target == Models then item + ".model3.json" else "meta.mko"
  {
    var stored, name := item + [SLASH] + leaf, Sentinel(target, item)[1];
    TwoParts(item, leaf);
    JoinTwo(item, leaf);
    JoinTwo(item, name);
    if leaf == name {
      TwoPartsSafe(item, leaf, isLetter);
      PackAccepted(stored, target, isLetter, item);
    } else {
      assert stored[|item| + 1..] == leaf && (item + [SLASH] + name)[|item| + 1..] == name;
      assert CleanPath(stored) != Join(Sentinel(target, item), SLASH);
      forall i | 0 <= i < |Pack(stored).entries| ensures CleanPath(Pack(stored).entries[i].path) == CleanPath(stored) {
      }
    }
  }

  lemma TwoPartsSafe(x: string, y: string, isLetter: char -> bool)
    requires Plain(x) && Ordinary(y)
    ensures SafeRelativePath(x + [SLASH] + y, isLetter) == Safe
  {
    var stored := x + [SLASH] + y;
    TwoParts(x, y);
    assert stored[0] == x[0] && x[0] in x;
    assert stored[1] == if |x| > 1 then x[1] else SLASH;
    SafeByParts(stored, isLetter);
  }

  lemma SafeByParts(stored: string, isLetter: char -> bool)
    requires |stored| >= 2 && stored[0] != '/' && stored[0] != '\\' && stored[1] != ':'
    requires Parts(stored) != [] && AllOrdinary(Parts(stored))
    ensures SafeRelativePath(stored, isLetter) == Safe
  {
    var base, parts := ["base"], Parts(stored);
    assert ".." !in parts;
    SplitIsExact(stored, SLASH);
    NormalIsWalk(base, Split(stored, SLASH));
    assert |base + parts| > |base|;
    AcceptedIff(stored, isLetter, base);
  }

  const SOUND: World := World(true, true, true, (i: nat) => true, true, (c: char) => false)

  /** Nothing goes wrong in this world, and such a pack is ready for every item with a plain name. */
  lemma PackReady(item: string)
    requires Plain(item)
    ensures Ready(Pack(item + [SLASH] + "meta.mko"), VoicePacks, SOUND, item)
  {
    var a := Pack(item + [SLASH] + "meta.mko");
    TwoParts(item, "meta.mko");
    TwoPartsSafe(item, "meta.mko", SOUND.isLetter);
    PackAccepted(item + [SLASH] + "meta.mko", VoicePacks, SOUND.isLetter, item);
    PackExtracts(item + [SLASH] + "meta.mko");
  }

  lemma PackExtracts(stored: string)
    ensures AllExtract(Pack(stored), SOUND.writes)
  {
    assert Pack(stored).entries[..0] == [];
  }

  /** It installs where nothing is in the way. */
  lemma PackInstalls(root: Path, item: string)
    requires Plain(item)
    ensures Succeeds(Pack(item + [SLASH] + "meta.mko"), VoicePacks, SOUND, root, map[])
  {
    var stored := item + [SLASH] + "meta.mko";
    PackReady(item);
    PackFiles(stored);
    assert Moves(map[], root, item, Extracted(Pack(stored).entries, Pack(stored).content), SOUND);
    SucceedsHere(Pack(stored), VoicePacks, SOUND, root, map[], item);
  }

  lemma PackFiles(stored: string)
    ensures Parts(stored) in Extracted(Pack(stored).entries, Pack(stored).content)
  {
    assert Pack(stored).entries[..0] == [];
  }

  lemma OneFileCleared(root: Path, item: string, file: Path, data: Bytes)
    requires |file| > 1 && file[0] == item
    ensures root + [item] !in map[root + file := data] && Cleared(map[root + file := data], root + [item]) == map[]
  {
    assert (root + file)[..|root| + 1] == root + [item];
    assert |root + file| > |root + [item]|;
  }

  /** In a world where nothing goes wrong, an accepted archive destroys the installed item and fails. */
  lemma OldItemLost(root: Path, item: string, data: Bytes) returns (a: Archive, t: Tree)
    requires Plain(item)
    ensures Ready(a, VoicePacks, SOUND, item) && !Succeeds(a, VoicePacks, SOUND, root, t)
    ensures t == map[root + Sentinel(VoicePacks, item) := data] && Installed(a, VoicePacks, SOUND, root, t) == map[]
  {
    a := Flagged(Pack(item + [SLASH] + "meta.mko"), Everything);
    t := map[root + Sentinel(VoicePacks, item) := data];
    PackReady(item);
    OneFileCleared(root, item, Sentinel(VoicePacks, item), data);
    OnlyDirectories(Pack(item + [SLASH] + "meta.mko"), VoicePacks, SOUND, root, item, t);
  }
}
