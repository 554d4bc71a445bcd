/** `cleanVolumeBestEffort` of `cmd/runmqserver/crtmqvol.go`: marking the paths to be kept, then
    walking the tree and deleting the rest. */
module VolumeCleaner {
  type Name = n: string | n != "" && '/' !in n witness "a"

  /** A cleaned absolute path: the names below the root directory. */
  type Path = seq<Name>

  /** The path as the source sees it. */
  function Text(p: Path): (text: string) {
    if p == [] then "/" else if |p| == 1 then "/" + p[0] else Text(p[..|p| - 1]) + "/" + p[|p| - 1]
  }

  /** filepath.Dir */
  function Dir(p: Path): (path: Path) {
    if p == [] then [] else p[..|p| - 1]
  }

  /** strings.HasPrefix, on the text: "/a" is a prefix of "/ab". */
  predicate HasPrefix(p: Path, cleanPath: Path) {
    Text(cleanPath) <= Text(p)
  }

  // ---------------------------------------------------------------- the loop over the ancestors

  function Ancestor(p: Path, steps: nat): (path: Path) {
    if steps == 0 then p else Ancestor(Dir(p), steps - 1)
  }

  lemma {:induction false} AncestorIsPrefix(p: Path, steps: nat)
    ensures Ancestor(p, steps) == if steps <= |p| then p[..|p| - steps] else []
  {
    if steps > 0 {
      AncestorIsPrefix(Dir(p), steps - 1);
    }
  }

  lemma {:induction false} TextGrows(p: Path, k: nat)
    requires k <= |p|
    ensures Text(p[..k]) <= Text(p) && (k < |p| ==> |Text(p[..k])| < |Text(p)|)
    decreases |p|
  {
    if k < |p| {
      TextGrows(p[..|p| - 1], k);
      assert p[..|p| - 1][..k] == p[..k];
    } else {
      assert p[..k] == p;
    }
  }

  /** Nothing but the root directory is a prefix of the root directory. */
  lemma RootHasNoPrefix(p: Path)
    requires p != []
    ensures !HasPrefix([], p)
  {
    TextGrows(p, 0);
  }

  /** The loop that marks a path and its ancestors comes to an end exactly if the path being
      cleaned is not the root directory. */
  lemma AncestorLoopEndsIff(skipPath: Path, cleanPath: Path)
    ensures (exists steps: nat :: !HasPrefix(Ancestor(skipPath, steps), cleanPath)) <==> cleanPath != []
  {
    if cleanPath == [] {
      forall steps: nat
        ensures HasPrefix(Ancestor(skipPath, steps), cleanPath)
      {
        RootIsPrefix(Ancestor(skipPath, steps));
      }
    } else {
      AncestorIsPrefix(skipPath, |skipPath|);
      RootHasNoPrefix(cleanPath);
      assert !HasPrefix(Ancestor(skipPath, |skipPath|), cleanPath);
    }
  }

  lemma RootIsPrefix(p: Path)
    ensures HasPrefix(p, [])
  {
    TextGrows(p, 0);
  }

  // ---------------------------------------------------------------- what is marked

  /** `p` is on the way from the path being cleaned down to one to be kept. */
  predicate Keeps(cleanPath: Path, skipPaths: seq<Path>, p: Path) {
    p == cleanPath || (cleanPath <= p && exists i | 0 <= i < |skipPaths| :: p <= skipPaths[i])
  }

  /** The marks below the path being cleaned are right, for the first `n` paths to be kept. */
  ghost predicate MarksRight(marked: set<Path>, cleanPath: Path, skipPaths: seq<Path>) {
    forall p | cleanPath <= p :: p in marked <==> Keeps(cleanPath, skipPaths, p)
  }

  lemma PrefixText(cleanPath: Path, p: Path)
    requires cleanPath <= p
    ensures HasPrefix(p, cleanPath)
  {
    TextGrows(p, |cleanPath|);
    assert p[..|cleanPath|] == cleanPath;
  }

  /** Going up from a path to be kept, nothing below the path being cleaned is missed. */
  lemma NoneMissed(cleanPath: Path, skip: Path, stop: Path, p: Path)
    requires stop <= skip && !HasPrefix(stop, cleanPath) && cleanPath <= p <= skip
    ensures |stop| < |p|
  {
    if |p| <= |stop| {
      assert stop[..|p|] == p;
      PrefixText(cleanPath, p);
      TextGrows(stop, |p|);
    }
  }

  lemma SameLength(p: Path, q: Path, r: Path)
    requires p <= r && q <= r && |p| == |q|
    ensures p == q
  {
  }

  /** The inner loop: a path and its ancestors, as long as the text of cleanPath starts them. */
  method MarkAncestors(marked: set<Path>, skip: Path, cleanPath: Path) returns (marked': set<Path>)
    requires cleanPath != []
    ensures forall p | cleanPath <= p :: p in marked' <==> p in marked || p <= skip
  {
    marked' := marked;
    var skipPath := skip;
    while HasPrefix(skipPath, cleanPath)
      invariant skipPath <= skip
      invariant forall p :: p in marked' <==> p in marked || (|skipPath| < |p| && p <= skip)
      decreases |skipPath|
    {
      if skipPath == [] {
        RootHasNoPrefix(cleanPath);
      }
      forall p: Path | p <= skip && |p| == |skipPath|
        ensures p == skipPath
      {
        SameLength(p, skipPath, skip);
      }
      marked' := marked' + {skipPath};
      skipPath := Dir(skipPath);
    }
    forall p | cleanPath <= p
      ensures p in marked' <==> p in marked || p <= skip
    {
      if p <= skip {
        NoneMissed(cleanPath, skip, skipPath, p);
      }
    }
  }

  lemma KeepsMore(cleanPath: Path, skipPaths: seq<Path>, skip: Path, p: Path)
    ensures Keeps(cleanPath, skipPaths + [skip], p) <==>
            Keeps(cleanPath, skipPaths, p) || (cleanPath <= p && p <= skip)
  {
    var all, n := skipPaths + [skip], |skipPaths|;
    assert all[n] == skip;
    if i :| 0 <= i < n && p <= skipPaths[i] {
      assert p <= all[i];
    }
  }

  /** The first loop of cleanVolumeBestEffort. Paths that only share the text of a prefix are marked
      as well, which does no harm: they are never visited. */
  method MarkSkipPaths(cleanPath: Path, skipPaths: seq<Path>) returns (marked: set<Path>)
    requires cleanPath != [] || skipPaths == []
    ensures MarksRight(marked, cleanPath, skipPaths)
  {
    marked := {cleanPath};
    for i := 0 to |skipPaths|
      invariant MarksRight(marked, cleanPath, skipPaths[..i])
    {
      marked := MarkAncestors(marked, skipPaths[i], cleanPath);
      assert skipPaths[..i + 1] == skipPaths[..i] + [skipPaths[i]];
      forall p | cleanPath <= p
        ensures p in marked <==> Keeps(cleanPath, skipPaths[..i + 1], p)
      {
        KeepsMore(cleanPath, skipPaths[..i], skipPaths[i], p);
      }
    }
    assert skipPaths[..|skipPaths|] == skipPaths;
  }

  // ---------------------------------------------------------------- the walk

  /** Every path from `root` down to `p` is marked. */
  predicate Reached(marked: set<Path>, root: Path, p: Path) {
    forall k | |root| <= k <= |p| :: p[..k] in marked
  }

  /** `p` cannot be deleted: it is, or holds, one of the paths that resist deletion. */
  predicate Blocked(stuck: set<Path>, p: Path) {
    exists q | q in stuck :: p <= q
  }

  /** The tree after walking it from `root`: what lies under an unmarked path is gone, as far as
      it can be deleted. */
  function Walked(files: set<Path>, stuck: set<Path>, marked: set<Path>, root: Path): (r: set<Path>) {
    set p | p in files && (root <= p ==> Reached(marked, root, p) || Blocked(stuck, p))
  }

  function Under(files: set<Path>, root: Path): (r: set<Path>) {
    set p | p in files && root <= p
  }

  /** The tree after os.RemoveAll(root). */
  function Removed(files: set<Path>, stuck: set<Path>, root: Path): (r: set<Path>) {
    set p | p in files && (root <= p ==> Blocked(stuck, p))
  }

  /** A file system: with a path, the directory that holds it. */
  ghost predicate Tree(files: set<Path>) {
    forall p | p in files && p != [] :: Dir(p) in files
  }

  function Entries(files: set<Path>, path: Path): (r: set<Path>) {
    set p | p in files && path <= p && |p| == |path| + 1
  }

  lemma {:induction false} EntryAbove(files: set<Path>, path: Path, p: Path)
    requires Tree(files) && p in files && path <= p && path != p
    ensures p[..|path| + 1] in Entries(files, path)
    decreases |p|
  {
    if |p| == |path| + 1 {
      assert p[..|path| + 1] == p;
    } else {
      assert Dir(p) in files;
      EntryAbove(files, path, Dir(p));
      assert Dir(p)[..|path| + 1] == p[..|path| + 1];
    }
  }

  lemma UnmarkedIsGone(files: set<Path>, stuck: set<Path>, marked: set<Path>, path: Path)
    requires path !in marked
    ensures Walked(files, stuck, marked, path) == Removed(files, stuck, path)
  {
    forall p | path <= p
      ensures !Reached(marked, path, p)
    {
      assert p[..|path|] == path;
    }
  }

  /** Removing first and walking on afterwards comes to the same. */
  lemma RemovedThenWalked(files: set<Path>, stuck: set<Path>, marked: set<Path>, path: Path)
    requires path !in marked
    ensures Walked(Removed(files, stuck, path), stuck, marked, path) == Walked(files, stuck, marked, path)
  {
    UnmarkedIsGone(files, stuck, marked, path);
    UnmarkedIsGone(Removed(files, stuck, path), stuck, marked, path);
  }

  lemma RemovedIsTree(files: set<Path>, stuck: set<Path>, path: Path)
    requires Tree(files)
    ensures Tree(Removed(files, stuck, path)) && Removed(files, stuck, path) <= files
    ensures stuck <= files ==> stuck <= Removed(files, stuck, path)
  {
    forall p | p in Removed(files, stuck, path) && p != []
      ensures Dir(p) in Removed(files, stuck, path)
    {
      if path <= Dir(p) {
        BlockedAbove(stuck, p);
      }
    }
    forall p | p in stuck
      ensures Blocked(stuck, p)
    {
      assert p <= p;
    }
  }

  lemma BlockedAbove(stuck: set<Path>, p: Path)
    requires Blocked(stuck, p) && p != []
    ensures Blocked(stuck, Dir(p))
  {
    var q :| q in stuck && p <= q;
    assert Dir(p) <= q;
  }

  lemma WalkedIsTree(files: set<Path>, stuck: set<Path>, marked: set<Path>, path: Path)
    requires Tree(files)
    ensures Tree(Walked(files, stuck, marked, path)) && Walked(files, stuck, marked, path) <= files
    ensures stuck <= files ==> stuck <= Walked(files, stuck, marked, path)
  {
    forall p | p in Walked(files, stuck, marked, path) && p != []
      ensures Dir(p) in Walked(files, stuck, marked, path)
    {
      if path <= Dir(p) {
        assert path <= p;
        if Blocked(stuck, p) {
          BlockedAbove(stuck, p);
        } else {
          forall k | |path| <= k <= |Dir(p)|
            ensures Dir(p)[..k] in marked
          {
            assert Dir(p)[..k] == p[..k];
          }
        }
      }
    }
    forall p | p in stuck
      ensures Blocked(stuck, p)
    {
      assert p <= p;
    }
  }

  /** `p` is still there when the walk has been through the entries `done` of the directory `path`. */
  predicate Survives(stuck: set<Path>, marked: set<Path>, path: Path, done: set<Path>, p: Path) {
    path <= p && path != p && p[..|path| + 1] in done ==> Reached(marked, p[..|path| + 1], p) || Blocked(stuck, p)
  }

  ghost predicate PartlyWalked(before: set<Path>, stuck: set<Path>, marked: set<Path>, path: Path, done: set<Path>,
      files: set<Path>) {
    forall p :: p in files <==> p in before && Survives(stuck, marked, path, done, p)
  }

  lemma EntryWalked(before: set<Path>, stuck: set<Path>, marked: set<Path>, path: Path, done: set<Path>,
      files: set<Path>, entry: Path)
    requires PartlyWalked(before, stuck, marked, path, done, files)
    requires path <= entry && |entry| == |path| + 1 && entry !in done
    ensures PartlyWalked(before, stuck, marked, path, done + {entry}, Walked(files, stuck, marked, entry))
  {
    hide Blocked;
    var files' := Walked(files, stuck, marked, entry);
    forall p
      ensures p in files' <==> p in before && Survives(stuck, marked, path, done + {entry}, p)
    {
      assert p in files <==> p in before && Survives(stuck, marked, path, done, p);
      if path <= p && path != p && p[..|path| + 1] == entry {
        assert entry <= p;
      }
      if entry <= p {
        assert p[..|path| + 1] == entry && p[..|path|] == path;
      }
    }
  }

  lemma AllEntriesWalked(before: set<Path>, stuck: set<Path>, marked: set<Path>, path: Path, files: set<Path>)
    requires Tree(before) && (path in marked || Blocked(stuck, path) || path !in before)
    requires path in marked || before == Removed(before, stuck, path)
    requires PartlyWalked(before, stuck, marked, path, Entries(before, path), files)
    ensures files == Walked(before, stuck, marked, path)
  {
    if path !in marked {
      UnmarkedIsGone(before, stuck, marked, path);
    }
    forall p
      ensures p in files <==> p in Walked(before, stuck, marked, path)
    {
      assert p in files <==> p in before && Survives(stuck, marked, path, Entries(before, path), p);
      if p in before && path <= p {
        assert p[..|path|] == path;
        if path != p {
          EntryAbove(before, path, p);
        } else if path in marked {
          assert Reached(marked, path, p);
        }
      }
    }
  }

  /** A directory tree in which the paths `stuck` cannot be deleted. */
  class Volume {
    var files: set<Path>
    const stuck: set<Path>

    ghost predicate Valid()
      reads this
    {
      Tree(files) && stuck <= files
    }

    constructor (files: set<Path>, stuck: set<Path>)
      requires Tree(files) && stuck <= files
      ensures Valid() && this.files == files && this.stuck == stuck
    {
      this.files := files;
      this.stuck := stuck;
    }

    /** os.RemoveAll: deletes what it can, and says whether that was everything. */
    method RemoveAll(path: Path) returns (ok: bool)
      requires Valid()
      modifies this
      ensures Valid() && files == Removed(old(files), stuck, path)
      ensures ok <==> !Blocked(stuck, path)
    {
      RemovedIsTree(files, stuck, path);
      files := Removed(files, stuck, path);
      ok := !Blocked(stuck, path);
    }

    /** filepath.WalkDir with the callback of cleanVolumeBestEffort: after a deletion that failed,
        the walk goes on inside. */
    method Walk(path: Path, marked: set<Path>)
      requires Valid()
      modifies this
      ensures Valid() && files == Walked(old(files), stuck, marked, path)
      decreases Under(files, path)
    {
      hide Tree, Walked, PartlyWalked, Reached, Survives, Removed, Blocked;
      WalkedIsTree(files, stuck, marked, path);
      ghost var start := files;
      if path !in marked {
        var ok := RemoveAll(path);
        UnmarkedIsGone(start, stuck, marked, path);
        if ok {
          return;
        }
        RemovedThenWalked(start, stuck, marked, path);
        RemovedIsTree(start, stuck, path);
        RemovedTwice(start, stuck, path);
      }
      ghost var before := files;
      var todo := Entries(files, path);
      ghost var done: set<Path> := {};
      NothingWalked(before, stuck, marked, path);
      while todo != {}
        invariant files <= before && Valid()
        invariant todo !! done && todo + done == Entries(before, path)
        invariant PartlyWalked(before, stuck, marked, path, done, files)
        decreases todo
      {
        var entry :| entry in todo;
        FewerUnder(before, files, start, path, entry);
        EntryWalked(before, stuck, marked, path, done, files, entry);
        WalkedIsTree(files, stuck, marked, entry);
        Walk(entry, marked);
        todo, done := todo - {entry}, done + {entry};
      }
      AllEntriesWalked(before, stuck, marked, path, files);
    }

    /** Everything under `cleanPath` goes, as far as it can be deleted, but for the paths to be kept
        and the way down to them. */
    method CleanVolumeBestEffort(cleanPath: Path, skipPaths: seq<Path>)
      requires (cleanPath != [] || skipPaths == []) && Valid()
      modifies this
      ensures Valid()
      ensures forall p :: p in files <==>
                p in old(files) &&
                (cleanPath <= p ==>
                  || p == cleanPath
                  || (exists i | 0 <= i < |skipPaths| :: p <= skipPaths[i])
                  || (exists q | q in stuck :: p <= q))
    {
      var skipPathsMap := MarkSkipPaths(cleanPath, skipPaths);
      KeptIsReached(cleanPath, skipPaths, skipPathsMap);
      Walk(cleanPath, skipPathsMap);
    }
  }

  lemma RemovedTwice(files: set<Path>, stuck: set<Path>, path: Path)
    ensures Removed(Removed(files, stuck, path), stuck, path) == Removed(files, stuck, path)
  {
  }

  lemma NothingWalked(files: set<Path>, stuck: set<Path>, marked: set<Path>, path: Path)
    ensures PartlyWalked(files, stuck, marked, path, {}, files)
  {
  }

  lemma FewerUnder(before: set<Path>, files: set<Path>, start: set<Path>, path: Path, entry: Path)
    requires files <= before <= start && Tree(before) && entry in Entries(before, path)
    ensures Under(files, entry) < Under(start, path)
  {
    assert entry in before && entry != [] && Dir(entry) == path;
    assert path in Under(start, path) && path !in Under(files, entry);
    assert forall p | p in Under(files, entry) :: path <= p;
  }

  /** The marks are closed upwards, so a marked path is reached. */
  lemma KeptIsReached(cleanPath: Path, skipPaths: seq<Path>, marked: set<Path>)
    requires MarksRight(marked, cleanPath, skipPaths)
    ensures forall p | cleanPath <= p :: Reached(marked, cleanPath, p) <==> Keeps(cleanPath, skipPaths, p)
  {
    forall p | cleanPath <= p
      ensures Reached(marked, cleanPath, p) <==> Keeps(cleanPath, skipPaths, p)
    {
      assert p[..|p|] == p;
      if Keeps(cleanPath, skipPaths, p) {
        forall k | |cleanPath| <= k <= |p|
          ensures p[..k] in marked
        {
          assert cleanPath <= p[..k] <= p;
          assert Keeps(cleanPath, skipPaths, p[..k]);
        }
      }
    }
  }
}
