// installArchive(): every entry is validated before anything is written, the files go to a temporary
// directory, and one move replaces the item directory.
module ArchiveInstall {
  import opened Text
  import opened ArchivePaths

  type Bytes = seq<bv8>
  /** The files below some directory, by their components. Directories are implied. */
  type Path = seq<string>
  type Tree = map<Path, Bytes>

  datatype Entry = Entry(path: string, isDir: bool, uncompressedSize: nat)

  /** A readable archive; `content` is the lookup of decompressed data by stored name. */
  datatype Archive = Unreadable | Archive(entries: seq<Entry>, content: string -> Bytes)

  datatype Target = VoicePacks | Models | NotAllowed

  datatype Error = Ok | NotFound | InvalidArgument | Generic

  /** What the world decides: the finished download, the owner's id, the temporary directory, every
      single file write, and the final move. */
  datatype World = World(finished: bool, ownerOk: bool, tempOk: bool, writes: nat -> bool, moves: bool,
                         isLetter: char -> bool)

  // ----- what an acceptable archive is ----------------------------------------------------

  predicate AllSafe(entries: seq<Entry>, isLetter: char -> bool) {
    forall i :: 0 <= i < |entries| ==> SafeRelativePath(entries[i].path, isLetter) == Safe
  }

  function TopName(e: Entry): string { Split(CleanPath(e.path), SLASH)[0] }

  function TopNames(entries: seq<Entry>): set<string> {
    set e | e in entries && TopName(e) != "" :: TopName(e)
  }

  /** The file that the scanner of the target looks for. */
  function Sentinel(target: Target, item: string): Path {
    [item, if target == Models then item + ".model3.json" else "meta.mko"]
  }

  predicate HasPath(entries: seq<Entry>, clean: string) {
    exists i :: 0 <= i < |entries| && CleanPath(entries[i].path) == clean
  }

  predicate HasSentinel(entries: seq<Entry>, target: Target, item: string) {
    HasPath(entries, Join(Sentinel(target, item), SLASH))
  }

  /** Everything under one item directory that holds the sentinel. */
  predicate Accepted(a: Archive, target: Target, isLetter: char -> bool, item: string) {
    && a.Archive? && a.entries != [] && AllSafe(a.entries, isLetter)
    && TopNames(a.entries) == {item}
    && HasSentinel(a.entries, target, item)
  }

  // ----- extraction -----------------------------------------------------------------------

  /** What the archive says the item looks like: for each path, the last file entry cleaned to it. */
  function Extracted(entries: seq<Entry>, content: string -> Bytes): Tree {
    if entries == [] then map[]
    else
      var before, e := Extracted(entries[..|entries| - 1], content), entries[|entries| - 1];
      if e.isDir then before else before[Parts(e.path) := content(e.path)]
  }

  predicate ProperPrefix(p: Path, q: Path) { |p| < |q| && q[..|p|] == p }

  /** A file can be put here: no file stands where a directory is needed, nor the other way round. */
  ghost predicate Fits(t: Tree, p: Path) {
    forall q :: q in t ==> !ProperPrefix(q, p) && !ProperPrefix(p, q)
  }

  /** No file lies inside another file. */
  ghost predicate IsTree(t: Tree) {
    forall p :: p in t ==> Fits(t, p)
  }

  ghost predicate Extracts(a: Archive, writes: nat -> bool, i: nat)
    requires a.Archive? && i < |a.entries|
  {
    var e := a.entries[i];
    e.isDir
    || (&& !(a.content(e.path) == [] && e.uncompressedSize > 0)
        && Fits(Extracted(a.entries[..i], a.content), Parts(e.path))
        && writes(i))
  }

  ghost predicate AllExtract(a: Archive, writes: nat -> bool)
    requires a.Archive?
  {
    forall i :: 0 <= i < |a.entries| ==> Extracts(a, writes, i)
  }

  // ----- the tree afterwards --------------------------------------------------------------

  predicate Below(p: Path, dir: Path) { |dir| <= |p| && p[..|dir|] == dir }

  /** The tree without everything at or below `dir`. */
  function Cleared(t: Tree, dir: Path): Tree {
    map p | p in t && !Below(p, dir) :: t[p]
  }

  /** The extracted files, moved below `root`. */
  function Placed(root: Path, files: Tree): Tree {
    map p | p in (set q | q in files :: root + q) :: files[p[|root|..]]
  }

  /** The move can happen: something was extracted, no file is in the way, and the system obliges. */
  ghost predicate Moves(t: Tree, root: Path, item: string, files: Tree, world: World) {
    && files != map[] && root + [item] !in t
    && (forall q :: q in t ==> !Below(root, q))
    && world.moves
  }

  /** Everything short of the final move is in order. */
  ghost predicate Ready(a: Archive, target: Target, world: World, item: string) {
    && world.finished && target != NotAllowed && world.ownerOk && world.tempOk
    && Accepted(a, target, world.isLetter, item)
    && AllExtract(a, world.writes)
  }

  /** The tree with the item directory replaced by the extracted files. */
  function After(t: Tree, root: Path, item: string, files: Tree): Tree {
    Cleared(t, root + [item]) + Placed(root, files)
  }

  /** The final move: a file in the place of the item directory stays, a directory there is gone also
      when the move then fails. */
  ghost function Moved(t: Tree, root: Path, item: string, files: Tree, world: World): Tree {
    if root + [item] in t then t
    else if Moves(t, root, item, files, world) then After(t, root, item, files)
    else Cleared(t, root + [item])
  }

  /** The whole install, told without its stages: nothing happens before everything is ready. */
  ghost function Installed(a: Archive, target: Target, world: World, root: Path, t: Tree): Tree {
    if item :| Ready(a, target, world, item) then Moved(t, root, item, Extracted(a.entries, a.content), world) else t
  }

  ghost predicate Succeeds(a: Archive, target: Target, world: World, root: Path, t: Tree) {
    exists item :: Ready(a, target, world, item) && Moves(t, root, item, Extracted(a.entries, a.content), world)
  }

  /** An item directory that holds something. */
  ghost predicate Holds(t: Tree, root: Path, item: string) {
    root + [item] !in t && exists p :: p in t && Below(p, root + [item])
  }

  /** The install gets as far as clearing an item directory that holds something. */
  ghost predicate Clears(a: Archive, target: Target, world: World, root: Path, t: Tree, item: string) {
    Ready(a, target, world, item) && Holds(t, root, item)
  }

  lemma ReadyOnce(a: Archive, target: Target, world: World, item: string, other: string)
    requires Ready(a, target, world, item) && Ready(a, target, world, other)
    ensures item == other
  {
    assert item in TopNames(a.entries) && other in TopNames(a.entries);
  }

  lemma InstalledItem(a: Archive, target: Target, world: World, root: Path, t: Tree, item: string)
    requires Ready(a, target, world, item)
    ensures Installed(a, target, world, root, t) == Moved(t, root, item, Extracted(a.entries, a.content), world)
  {
    var other :| Ready(a, target, world, other)
                 && Installed(a, target, world, root, t) ==
                    Moved(t, root, other, Extracted(a.entries, a.content), world);
    ReadyOnce(a, target, world, item, other);
  }

  lemma ClearedSameIff(t: Tree, dir: Path)
    ensures Cleared(t, dir) == t <==> forall p :: p in t ==> !Below(p, dir)
  {
    if Cleared(t, dir) == t {
      forall p | p in t ensures !Below(p, dir) {
        assert p in Cleared(t, dir);
      }
    }
  }

  lemma FailedMoveKeepsIff(t: Tree, root: Path, item: string, files: Tree, world: World)
    requires !Moves(t, root, item, files, world)
    ensures Moved(t, root, item, files, world) == t <==> !Holds(t, root, item)
    ensures Holds(t, root, item) ==> Moved(t, root, item, files, world) == Cleared(t, root + [item])
  {
    ClearedSameIff(t, root + [item]);
  }

  lemma ReadyButFailed(a: Archive, target: Target, world: World, root: Path, t: Tree, item: string)
    requires Ready(a, target, world, item) && !Moves(t, root, item, Extracted(a.entries, a.content), world)
    ensures Installed(a, target, world, root, t) == t <==> !Holds(t, root, item)
    ensures Holds(t, root, item) ==> Installed(a, target, world, root, t) == Cleared(t, root + [item])
  {
    InstalledItem(a, target, world, root, t, item);
    FailedMoveKeepsIff(t, root, item, Extracted(a.entries, a.content), world);
  }

  /** A failed install leaves the tree as it was exactly when it clears no item directory that holds
      something; otherwise the old item is gone. */
  lemma FailedInstallKeepsIff(a: Archive, target: Target, world: World, root: Path, t: Tree)
    requires !Succeeds(a, target, world, root, t)
    ensures Installed(a, target, world, root, t) == t <==> forall item :: !Clears(a, target, world, root, t, item)
  {
    if item :| Ready(a, target, world, item) {
      ReadyButFailed(a, target, world, root, t, item);
      assert Clears(a, target, world, root, t, item) <==> Holds(t, root, item);
      forall other | Clears(a, target, world, root, t, other) ensures other == item {
        ReadyOnce(a, target, world, item, other);
      }
    } else {
      assert Installed(a, target, world, root, t) == t;
    }
  }

  lemma SucceedsHere(a: Archive, target: Target, world: World, root: Path, t: Tree, item: string)
    requires Ready(a, target, world, item)
    ensures Succeeds(a, target, world, root, t) <==> Moves(t, root, item, Extracted(a.entries, a.content), world)
  {
    if other :| Ready(a, target, world, other) && Moves(t, root, other, Extracted(a.entries, a.content), world) {
      ReadyOnce(a, target, world, item, other);
    }
  }

  /** With everything accepted up to the extraction, the extraction and the move decide. */
  lemma PlacedIs(a: Archive, target: Target, world: World, root: Path, t: Tree, item: string)
    requires world.finished && target != NotAllowed && world.ownerOk && world.tempOk
    requires Accepted(a, target, world.isLetter, item)
    ensures Installed(a, target, world, root, t) ==
            if AllExtract(a, world.writes) then Moved(t, root, item, Extracted(a.entries, a.content), world) else t
    ensures Succeeds(a, target, world, root, t) <==>
            AllExtract(a, world.writes) && Moves(t, root, item, Extracted(a.entries, a.content), world)
  {
    if AllExtract(a, world.writes) {
      InstalledItem(a, target, world, root, t, item);
      SucceedsHere(a, target, world, root, t, item);
    }
  }

  /** What a failed install leaves. */
  lemma FailedInstall(a: Archive, target: Target, world: World, root: Path, t: Tree)
    requires !Succeeds(a, target, world, root, t)
    ensures forall item :: Ready(a, target, world, item) ==>
              Installed(a, target, world, root, t) == if root + [item] in t then t else Cleared(t, root + [item])
    ensures (forall item :: !Ready(a, target, world, item)) ==> Installed(a, target, world, root, t) == t
  {
    forall item | Ready(a, target, world, item)
      ensures Installed(a, target, world, root, t) == if root + [item] in t then t else Cleared(t, root + [item])
    {
      InstalledItem(a, target, world, root, t, item);
      SucceedsHere(a, target, world, root, t, item);
    }
  }

  // ----- the installer --------------------------------------------------------------------

  class Installer {
    var tree: Tree

    constructor (tree: Tree)
      ensures this.tree == tree
    {
      this.tree := tree;
    }

    static method ValidateAll(entries: seq<Entry>, isLetter: char -> bool) returns (ok: bool)
      ensures ok <==> AllSafe(entries, isLetter)
    {
      for i := 0 to |entries|
        invariant AllSafe(entries[..i], isLetter)
      {
        if SafeRelativePath(entries[i].path, isLetter) != Safe {
          return false;
        }
      }
      return true;
    }

    static method CollectTopNames(entries: seq<Entry>) returns (names: set<string>)
      ensures names == TopNames(entries)
    {
      names := {};
      for i := 0 to |entries|
        invariant names == TopNames(entries[..i])
      {
        TopNamesSnoc(entries, i);
        var parts := Split(CleanPath(entries[i].path), SLASH);
        if parts[0] == "" {
          continue;
        }
        names := names + {parts[0]};
      }
      assert entries[..|entries|] == entries;
    }

    static lemma TopNamesSnoc(entries: seq<Entry>, i: nat)
      requires i < |entries|
      ensures TopNames(entries[..i + 1]) ==
              TopNames(entries[..i]) + if TopName(entries[i]) == "" then {} else {TopName(entries[i])}
    {
      assert entries[..i + 1] == entries[..i] + [entries[i]];
      var now := TopNames(entries[..i + 1]);
      if TopName(entries[i]) != "" {
        assert entries[i] in entries[..i + 1] && TopName(entries[i]) in now;
      }
      forall n | n in TopNames(entries[..i]) ensures n in now {
        var e :| e in entries[..i] && TopName(e) == n;
        assert e in entries[..i + 1];
      }
    }

    static method FindSentinel(entries: seq<Entry>, target: Target, item: string) returns (found: bool)
      ensures found == HasSentinel(entries, target, item)
    {
      SentinelText(target, item);
      found := FindPath(entries, if target == Models then item + "/" + item + ".model3.json" else item + "/meta.mko");
    }

    static method FindPath(entries: seq<Entry>, clean: string) returns (found: bool)
      ensures found == HasPath(entries, clean)
    {
      found := false;
      for i := 0 to |entries|
        invariant found == exists k :: 0 <= k < i && CleanPath(entries[k].path) == clean
      {
        if CleanPath(entries[i].path) == clean {
          found := true;
        }
      }
    }

    static lemma SentinelText(target: Target, item: string)
      ensures Join(Sentinel(target, item), SLASH) ==
              if target == Models then item + "/" + item + ".model3.json" else item + "/meta.mko"
    {
      var s := Sentinel(target, item);
      assert s[..1] == [item];
      assert Join([item], SLASH) == item;
      assert "/" + "meta.mko" == "/meta.mko";
    }

    /** Pass two, into the temporary directory. */
    method ExtractAll(a: Archive, world: World) returns (ok: bool, files: Tree)
      requires a.Archive?
      ensures ok <==> AllExtract(a, world.writes)
      ensures ok ==> files == Extracted(a.entries, a.content)
    {
      files := map[];
      for i := 0 to |a.entries|
        invariant files == Extracted(a.entries[..i], a.content)
        invariant forall k :: 0 <= k < i ==> Extracts(a, world.writes, k)
      {
        assert a.entries[..i + 1][..i] == a.entries[..i];
        var e := a.entries[i];
        if e.isDir {
          continue;
        }
        var data := a.content(e.path);
        if data == [] && e.uncompressedSize > 0 {
          assert !Extracts(a, world.writes, i);
          return false, files;
        }
        var fits := CanWrite(files, Parts(e.path));
        if !fits || !world.writes(i) {
          assert !Extracts(a, world.writes, i);
          return false, files;
        }
        files := files[Parts(e.path) := data];
      }
      assert a.entries[..|a.entries|] == a.entries;
      return true, files;
    }

    /** mkpath() and open() as far as other files decide. */
    static method CanWrite(files: Tree, p: Path) returns (ok: bool)
      ensures ok <==> Fits(files, p)
    {
      var rest := files.Keys;
      while rest != {}
        invariant rest <= files.Keys
        invariant forall q :: q in files && q !in rest ==> !ProperPrefix(q, p) && !ProperPrefix(p, q)
      {
        var q :| q in rest;
        if ProperPrefix(q, p) || ProperPrefix(p, q) {
          return false;
        }
        rest := rest - {q};
      }
      return true;
    }

    /** The final move: the old item directory goes first. */
    method MoveItem(root: Path, item: string, files: Tree, world: World) returns (ok: bool)
      modifies this
      ensures ok <==> Moves(old(tree), root, item, files, world)
      ensures tree == Moved(old(tree), root, item, files, world)
    {
      var dst := root + [item];
      if dst in tree {
        return false;
      }
      ghost var before := tree;
      tree := Cleared(tree, dst);
      var blocked := exists q | q in tree.Keys :: Below(root, q);
      assert blocked <==> exists q :: q in before && Below(root, q) by {
        if q :| q in before && Below(root, q) {
          assert !Below(q, dst);
          assert q in tree;
        }
      }
      if files == map[] || blocked || !world.moves {
        return false;
      }
      tree := tree + Placed(root, files);
      return true;
    }

    /** Pass one and the layout check. */
    static method CheckLayout(a: Archive, target: Target, isLetter: char -> bool) returns (ok: bool, item: string)
      requires a.Archive? && a.entries != []
      ensures ok <==> exists name :: Accepted(a, target, isLetter, name)
      ensures ok ==> Accepted(a, target, isLetter, item)
    {
      item := "";
      var safe := ValidateAll(a.entries, isLetter);
      if !safe {
        return false, item;
      }
      var names := CollectTopNames(a.entries);
      OneName(names);
      if |names| != 1 {
        return false, item;
      }
      item :| item in names;
      ok := FindSentinel(a.entries, target, item);
      if ok {
        assert Accepted(a, target, isLetter, item);
      }
    }

    /** The whole install. A failure leaves the tree as it was, except that it may have cleared the
        item directory for a move that did not happen. */
    method InstallArchive(a: Archive, target: Target, root: Path, world: World) returns (error: Error, installed: string)
      modifies this
      ensures error == Ok <==> Succeeds(a, target, world, root, old(tree))
      ensures error == Ok ==> Ready(a, target, world, installed)
      ensures tree == Installed(a, target, world, root, old(tree))
      ensures error == Ok ==> tree == After(old(tree), root, installed, Extracted(a.entries, a.content))
      ensures error != Ok ==>
                forall item :: Ready(a, target, world, item) && root + [item] !in old(tree) ==>
                                 error == Generic && tree == Cleared(old(tree), root + [item])
      ensures error != Ok && (forall item :: Ready(a, target, world, item) ==> root + [item] in old(tree)) ==>
                tree == old(tree)
      ensures error != Ok ==>
                (tree == old(tree) <==> forall item :: !Clears(a, target, world, root, old(tree), item))
      ensures error == NotFound <==> !world.finished
      ensures error == InvalidArgument <==>
              && world.finished
              && (|| target == NotAllowed || !world.ownerOk
                  || (a.Archive? && a.entries != [] && forall item :: !Accepted(a, target, world.isLetter, item)))
    {
      error, installed := Stages(a, target, root, world);
      if error == Ok {
        InstalledItem(a, target, world, root, old(tree), installed);
        SucceedsHere(a, target, world, root, old(tree), installed);
      } else {
        FailedInstall(a, target, world, root, old(tree));
        FailedInstallKeepsIff(a, target, world, root, old(tree));
      }
    }

    method Stages(a: Archive, target: Target, root: Path, world: World) returns (error: Error, installed: string)
      modifies this
      ensures error == Ok <==> Succeeds(a, target, world, root, old(tree))
      ensures error == Ok ==> Ready(a, target, world, installed)
      ensures tree == Installed(a, target, world, root, old(tree))
      ensures error == NotFound <==> !world.finished
      ensures error == InvalidArgument <==>
              && world.finished
              && (|| target == NotAllowed || !world.ownerOk
                  || (a.Archive? && a.entries != [] && forall item :: !Accepted(a, target, world.isLetter, item)))
    {
      installed := "";
      if !world.finished {
        return NotFound, installed;
      }
      if target == NotAllowed {
        return InvalidArgument, installed;
      }
      if !world.ownerOk {
        return InvalidArgument, installed;
      }
      if a.Unreadable? {
        return Generic, installed;
      }
      if a.entries == [] {
        return Generic, installed;
      }
      var accepted, name := CheckLayout(a, target, world.isLetter);
      if !accepted {
        return InvalidArgument, installed;
      }
      if !world.tempOk {
        return Generic, installed;
      }
      var placed := PlaceItem(a, root, name, world);
      PlacedIs(a, target, world, root, old(tree), name);
      if !placed {
        return Generic, installed;
      }
      return Ok, name;
    }

    /** Extraction and the final move. */
    method PlaceItem(a: Archive, root: Path, item: string, world: World) returns (ok: bool)
      requires a.Archive?
      modifies this
      ensures ok <==> AllExtract(a, world.writes)
                      && Moves(old(tree), root, item, Extracted(a.entries, a.content), world)
      ensures tree == if AllExtract(a, world.writes)
                      then Moved(old(tree), root, item, Extracted(a.entries, a.content), world) else old(tree)
    {
      var extracted, files := ExtractAll(a, world);
      if !extracted {
        return false;
      }
      ok := MoveItem(root, item, files, world);
    }

    static lemma OneName(names: set<string>)
      ensures |names| == 1 <==> exists name :: names == {name}
      ensures forall name :: |names| == 1 && name in names ==> names == {name}
    {
      if |names| == 1 {
        var n :| n in names;
        assert |names - {n}| == 0;
        assert names == {n};
      }
    }
  }
}
