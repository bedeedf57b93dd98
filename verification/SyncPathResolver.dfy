/** electron/sync-path-resolver.ts: from a relative path to a vetted absolute one. */
module SyncPathResolver {
  import opened Wrappers
  import opened PosixPaths
  import opened FilePathGuard

  datatype Resolved = Resolved(absolutePath: Path, root: Path, isRoot: bool)

  /** The outcome of the ancestor walk; `Exhausted` is the final throw after the loop. */
  datatype Verdict = Allowed | Refused | Exhausted

  /** The ancestor walk, by reference: the first ancestor that is not simply missing decides. */
  function AncestorVerdict(fs: FileSystem, root: Path, cursor: Path): Verdict
    decreases |cursor|
  {
    if cursor == [] then Exhausted
    else
      match Real(fs, cursor)
      case At(ancestor, _) => if InsideRoot(root, ancestor) then Allowed else Refused
      case Err(ENOENT) => AncestorVerdict(fs, root, Parent(cursor))
      case Err(_) => Refused
  }

  /** What the checks on an existing leaf say. */
  predicate LeafAllowed(fs: FileSystem, root: Path, joined: Path, leaf: Node) {
    !leaf.Link? && Real(fs, joined).At? && InsideRoot(root, Real(fs, joined).path)
  }

  /** The checks that ask the filesystem about the leaf, or about its ancestors if it is missing. */
  ghost predicate Accepts(fs: FileSystem, root: Path, joined: Path) {
    match Lstat(fs, joined)
    case Found(leaf) => LeafAllowed(fs, root, joined, leaf)
    case StatErr(e) => e == ENOENT && AncestorVerdict(fs, root, Parent(joined)).Allowed?
  }

  /** All checks before the filesystem is asked about the leaf. */
  predicate Admissible(fs: FileSystem, syncFolder: Option<string>, relative: string, userData: string)
    requires IsTree(fs)
  {
    && syncFolder.Some? && syncFolder.value != "" && userData != ""
    && RealRaw(fs, syncFolder.value).At?
    && AdmissibleRoot(fs, RealRaw(fs, syncFolder.value).path, relative, userData)
  }

  predicate AdmissibleRoot(fs: FileSystem, root: Path, relative: string, userData: string)
    requires IsTree(fs)
  {
    && Canon(fs, root) != Canon(fs, Resolve(fs.cwd, userData))
    && !IsInside(Canon(fs, Resolve(fs.cwd, userData)), Canon(fs, root))
    && !IsAbsolute(relative)
    && ValidPath(root)
    && InsideRoot(root, Resolve(root, relative))
  }

  /**
   `resolveSyncPath`; `None` is the one error it throws.  `syncFolder` is `None` when no
   folder is configured.
   */
  method ResolveSyncPath(fs: FileSystem, syncFolder: Option<string>, relative: string, userData: string)
    returns (resolved: Option<Resolved>)
    requires IsTree(fs) && Canonical(fs, fs.cwd)
    ensures resolved ==
            if && Admissible(fs, syncFolder, relative, userData)
               && Accepts(fs, RealRaw(fs, syncFolder.value).path, Resolve(RealRaw(fs, syncFolder.value).path, relative))
            then
              var root := RealRaw(fs, syncFolder.value).path;
              var joined := Resolve(root, relative);
              Some(Resolved(joined, root, joined == root))
            else None
  {
    if syncFolder.None? || syncFolder.value == "" || userData == "" {
      return None;
    }
    var walked := RealRaw(fs, syncFolder.value);
    if walked.Err? {
      return None;
    }
    var root := walked.path;
    RootIsCanonical(fs, syncFolder.value);
    var canonicalUserData := Canon(fs, Resolve(fs.cwd, userData));
    var canonicalRoot := Canon(fs, root);
    if canonicalRoot == canonicalUserData || IsInside(canonicalUserData, canonicalRoot) {
      return None;
    }
    if IsAbsolute(relative) {
      return None;
    }
    var joined := Resolve(root, relative);
    if !InsideRoot(root, joined) {
      return None;
    }
    var isRoot := joined == root;
    var leaf := Lstat(fs, joined);
    if leaf.StatErr? && leaf.errno != ENOENT {
      return None;
    }
    if leaf.Found? {
      if leaf.node.Link? {
        return None;
      }
      var canonicalLeaf := Real(fs, joined);
      if canonicalLeaf.Err? || !InsideRoot(root, canonicalLeaf.path) {
        return None;
      }
      return Some(Resolved(joined, root, isRoot));
    }
    var cursor := Parent(joined);
    while cursor != Parent(cursor)
      invariant AncestorVerdict(fs, root, cursor) == AncestorVerdict(fs, root, Parent(joined))
      decreases |cursor|
    {
      var ancestor := Real(fs, cursor);
      if ancestor.Err? && ancestor.errno != ENOENT {
        return None;
      }
      if ancestor.At? {
        if !InsideRoot(root, ancestor.path) {
          return None;
        }
        return Some(Resolved(joined, root, isRoot));
      }
      cursor := Parent(cursor);
    }
    return None;
  }

  lemma RootIsCanonical(fs: FileSystem, raw: string)
    requires IsTree(fs) && Canonical(fs, fs.cwd) && RealRaw(fs, raw).At?
    ensures Canonical(fs, RealRaw(fs, raw).path) && ValidPath(RealRaw(fs, raw).path)
    ensures Canon(fs, RealRaw(fs, raw).path) == RealRaw(fs, raw).path
  {
    var root := RealRaw(fs, raw).path;
    assert Canonical(fs, []);
    WalkIsCanonical(fs, if IsAbsolute(raw) then [] else fs.cwd, Split(raw), fs.maxLinks);
    RealOfCanonical(fs, root);
    assert ValidPath(root);
  }

  /**
   What is let through before the leaf is looked at: a configured folder that resolves to a
   root neither equal to nor (strictly, two-dot names aside) below the private directory, and
   a relative path, not an absolute one, that leads to the root or below it.
   */
  lemma AdmissibleIff(fs: FileSystem, syncFolder: Option<string>, relative: string, userData: string)
    requires IsTree(fs) && Canonical(fs, fs.cwd)
    ensures Admissible(fs, syncFolder, relative, userData) <==>
            && syncFolder.Some? && syncFolder.value != "" && userData != "" && RealRaw(fs, syncFolder.value).At?
            && var root, private := RealRaw(fs, syncFolder.value).path, Canon(fs, Resolve(fs.cwd, userData));
               && root != private && !(private < root && !(".." <= root[|private|]))
               && !("/" <= relative)
               && ValidPath(root)
               && var joined := Resolve(root, relative);
                  joined == root || (root < joined && !(".." <= joined[|root|]))
  {
    if syncFolder.Some? && RealRaw(fs, syncFolder.value).At? {
      RootIsCanonical(fs, syncFolder.value);
      var root := RealRaw(fs, syncFolder.value).path;
      CanonIsValid(fs, Resolve(fs.cwd, userData));
      RelativeIsPrefix(Canon(fs, Resolve(fs.cwd, userData)), root);
      InsideRootIff(root, Resolve(root, relative));
      assert IsAbsolute(relative) <==> "/" <= relative;
    }
  }

  /** An existing leaf is accepted if and only if it is no link and really is the root or below it. */
  lemma ExistingLeafAcceptedIff(fs: FileSystem, root: Path, joined: Path)
    requires IsTree(fs) && ValidPath(root) && ValidPath(joined) && Lstat(fs, joined).Found?
    ensures Accepts(fs, root, joined) <==>
            && !Lstat(fs, joined).node.Link? && Real(fs, joined).At?
            && var leaf := Real(fs, joined).path;
               leaf == root || (root < leaf && !(".." <= leaf[|root|]))
  {
    if Real(fs, joined).At? {
      RealIsCanonical(fs, joined);
      assert ValidPath(Real(fs, joined).path);
      InsideRootIff(root, Real(fs, joined).path);
    }
  }

  /** A leaf that cannot be looked up for any other reason than being missing is refused. */
  lemma UnreadableLeafRefused(fs: FileSystem, root: Path, joined: Path)
    requires Lstat(fs, joined).StatErr? && Lstat(fs, joined).errno != ENOENT
    ensures !Accepts(fs, root, joined)
  {
  }

  // ------------------------------------------------------------------ soundness

  /** An entry that `lstat` does not find does not resolve either, and for the same reason. */
  lemma MissingLeafDoesNotResolve(fs: FileSystem, p: Path)
    requires IsTree(fs) && ValidPath(p) && Lstat(fs, p).StatErr?
    ensures Real(fs, p) == Err(Lstat(fs, p).errno)
  {
    var front, name := Parent(p), p[|p| - 1];
    WalkSplits(fs, [], front, [name], fs.maxLinks);
    assert front + [name] == p;
    assert ValidName(name);
  }

  /** An Allowed verdict names an ancestor that resolves inside the root, everything between being missing. */
  lemma {:induction false} AllowedAncestor(fs: FileSystem, root: Path, cursor: Path) returns (n: nat)
    requires AncestorVerdict(fs, root, cursor).Allowed?
    ensures 0 < n <= |cursor| && Real(fs, cursor[..n]).At? && InsideRoot(root, Real(fs, cursor[..n]).path)
    ensures forall k | n < k <= |cursor| :: Real(fs, cursor[..k]) == Err(ENOENT)
    decreases |cursor|
  {
    if Real(fs, cursor).At? {
      n := |cursor|;
      assert cursor[..n] == cursor;
    } else {
      var up := Parent(cursor);
      n := AllowedAncestor(fs, root, up);
      assert up[..n] == cursor[..n];
      forall k | n < k <= |cursor|
        ensures Real(fs, cursor[..k]) == Err(ENOENT)
      {
        assert cursor[..k] == if k < |cursor| then up[..k] else cursor;
      }
    }
  }

  lemma InsideMeansUnder(root: Path, candidate: Path)
    requires ValidPath(root) && ValidPath(candidate) && InsideRoot(root, candidate)
    ensures root <= candidate
  {
    RelativeIsPrefix(root, candidate);
  }

  /**
   Soundness: an accepted path is under the root as written, and so is its canonical form
   -- its own real path, or that of its deepest existing ancestor plus the missing tail.
   */
  lemma AcceptedPathStaysUnderRoot(fs: FileSystem, root: Path, joined: Path)
    requires IsTree(fs) && ValidPath(root) && ValidPath(joined)
    requires InsideRoot(root, joined) && Accepts(fs, root, joined)
    ensures root <= joined && root <= Canon(fs, joined)
    ensures Lstat(fs, joined).Found? ==> !Lstat(fs, joined).node.Link?
  {
    InsideMeansUnder(root, joined);
    if Lstat(fs, joined).Found? {
      RealIsCanonical(fs, joined);
      assert ValidPath(Real(fs, joined).path);
      InsideMeansUnder(root, Real(fs, joined).path);
    } else {
      MissingLeafDoesNotResolve(fs, joined);
      var up := Parent(joined);
      var n := AllowedAncestor(fs, root, up);
      assert up[..n] == joined[..n];
      RealIsCanonical(fs, joined[..n]);
      assert ValidPath(Real(fs, joined[..n]).path);
      InsideMeansUnder(root, Real(fs, joined[..n]).path);
      forall k | n < k <= |joined|
        ensures Real(fs, joined[..k]).Err?
      {
        assert joined[..k] == if k < |joined| then up[..k] else joined;
      }
      DeepestDeterminesCanon(fs, joined, n);
    }
  }

  /**
   A file created at an accepted, so far missing path -- possible only if its directory
   resolves -- is found at a real path under the root.
   */
  lemma CreatedFileLandsUnderRoot(fs: FileSystem, root: Path, joined: Path)
    requires IsTree(fs) && ValidPath(root) && ValidPath(joined)
    requires InsideRoot(root, joined) && Accepts(fs, root, joined) && Lstat(fs, joined).StatErr?
    requires Real(fs, Parent(joined)).At?
    ensures joined != []
    ensures var entry := Real(fs, Parent(joined)).path + [joined[|joined| - 1]];
            var after := fs.(nodes := fs.nodes[entry := File]);
            && entry !in fs.nodes && root <= entry
            && Real(after, joined).At? && Real(after, joined).path == entry
  {
    MissingLeafDoesNotResolve(fs, joined);
    AcceptedPathStaysUnderRoot(fs, root, joined);
    var dir, name := Real(fs, Parent(joined)).path, joined[|joined| - 1];
    assert Canon(fs, joined) == dir + [name];
    CreatedFileIsFound(fs, joined);
  }

  lemma CreatedFileIsFound(fs: FileSystem, p: Path)
    requires IsTree(fs) && ValidPath(p) && p != [] && Lstat(fs, p).StatErr? && Real(fs, Parent(p)).At?
    requires IsDir(fs, Real(fs, Parent(p)).path) && fs.nodes[Real(fs, Parent(p)).path].searchable
    ensures var entry := Real(fs, Parent(p)).path + [p[|p| - 1]];
            var after := fs.(nodes := fs.nodes[entry := File]);
            entry !in fs.nodes && Real(after, p).At? && Real(after, p).path == entry
  {
    var up, name := Parent(p), p[|p| - 1];
    var dir := Real(fs, up).path;
    var after := fs.(nodes := fs.nodes[dir + [name] := File]);
    assert ValidName(name);
    WalkAfterCreate(fs, dir + [name], File, [], up, fs.maxLinks);
    WalkSplits(after, [], up, [name], fs.maxLinks);
    assert up + [name] == p;
    assert [name][1..] == [];
  }

  // ----------------------------------------------- the walk and its final throw

  /** The walk runs past the top exactly if every ancestor below the filesystem root is missing. */
  lemma {:induction false} ExhaustedIff(fs: FileSystem, root: Path, cursor: Path)
    ensures AncestorVerdict(fs, root, cursor).Exhausted? <==>
            forall k | 0 < k <= |cursor| :: Real(fs, cursor[..k]) == Err(ENOENT)
    decreases |cursor|
  {
    if cursor != [] {
      var up := Parent(cursor);
      ExhaustedIff(fs, root, up);
      assert cursor[..|cursor|] == cursor;
      assert forall k | 0 < k <= |up| :: up[..k] == cursor[..k];
    }
  }

  /** The paranoid final throw: not reached unless the sync root is the filesystem root itself. */
  lemma FinalThrowUnreachable(fs: FileSystem, root: Path, joined: Path)
    requires IsTree(fs) && Canonical(fs, root) && root != [] && ValidPath(joined)
    requires InsideRoot(root, joined) && Lstat(fs, joined) == StatErr(ENOENT)
    ensures !AncestorVerdict(fs, root, Parent(joined)).Exhausted?
  {
    assert ValidPath(root);
    InsideMeansUnder(root, joined);
    MissingLeafDoesNotResolve(fs, joined);
    RealOfCanonical(fs, root);
    assert joined != root;
    assert Parent(joined)[..|root|] == root;
    ExhaustedIff(fs, root, Parent(joined));
  }

  /** With the filesystem root as sync root, a missing top-level file is always refused. */
  lemma FilesystemRootRefusesNewTopLevelFiles(fs: FileSystem, name: string)
    requires IsTree(fs) && ValidName(name) && Lstat(fs, [name]) == StatErr(ENOENT)
    ensures AncestorVerdict(fs, [], Parent([name])).Exhausted?
  {
  }

  /**
   A missing leaf is accepted if and only if some ancestor resolves inside the root and
   everything below it is merely missing -- any other error on the way refuses.
   */
  lemma MissingLeafAcceptedIff(fs: FileSystem, root: Path, joined: Path)
    requires Lstat(fs, joined) == StatErr(ENOENT)
    ensures Accepts(fs, root, joined) <==>
            exists n: nat :: MissingBelow(fs, root, Parent(joined), n)
  {
    var up := Parent(joined);
    if Accepts(fs, root, joined) {
      var n := AllowedAncestor(fs, root, up);
      assert MissingBelow(fs, root, up, n);
    }
    if n: nat :| MissingBelow(fs, root, up, n) {
      MissingBelowAllows(fs, root, up, n);
    }
  }

  ghost predicate MissingBelow(fs: FileSystem, root: Path, cursor: Path, n: nat) {
    && 0 < n <= |cursor| && Real(fs, cursor[..n]).At? && InsideRoot(root, Real(fs, cursor[..n]).path)
    && forall k | n < k <= |cursor| :: Real(fs, cursor[..k]) == Err(ENOENT)
  }

  lemma {:induction false} MissingBelowAllows(fs: FileSystem, root: Path, cursor: Path, n: nat)
    requires MissingBelow(fs, root, cursor, n)
    ensures AncestorVerdict(fs, root, cursor).Allowed?
    decreases |cursor|
  {
    assert cursor[..|cursor|] == cursor;
    if n < |cursor| {
      var up := Parent(cursor);
      assert forall k | 0 < k <= |up| :: up[..k] == cursor[..k];
      MissingBelowAllows(fs, root, up, n);
    }
  }

  /** End to end: whatever `resolveSyncPath` returns is outside the protected directory and under its root. */
  lemma ResolvedIsSound(fs: FileSystem, syncFolder: Option<string>, relative: string, userData: string)
    requires IsTree(fs) && Canonical(fs, fs.cwd) && Admissible(fs, syncFolder, relative, userData)
    requires Accepts(fs, RealRaw(fs, syncFolder.value).path, Resolve(RealRaw(fs, syncFolder.value).path, relative))
    ensures var root := RealRaw(fs, syncFolder.value).path;
            var joined := Resolve(root, relative);
            var private := Canon(fs, Resolve(fs.cwd, userData));
            && Canonical(fs, root) && root <= joined && root <= Canon(fs, joined)
            && (!(private <= root) || (private < root && StartsWith(root[|private|], "..")))
  {
    RootIsCanonical(fs, syncFolder.value);
    var root := RealRaw(fs, syncFolder.value).path;
    AcceptedPathStaysUnderRoot(fs, root, Resolve(root, relative));
    CanonIsValid(fs, Resolve(fs.cwd, userData));
    RelativeIsPrefix(Canon(fs, Resolve(fs.cwd, userData)), root);
  }

  /** An existing entry at or under the private directory is accepted under this relative path. */
  ghost predicate ReachesPrivate(fs: FileSystem, root: Path, userData: string, relative: string)
    requires IsTree(fs) && ValidPath(root)
  {
    var joined := Resolve(root, relative);
    && AdmissibleRoot(fs, root, relative, userData)
    && Lstat(fs, joined).Found? && Accepts(fs, root, joined)
    && Canon(fs, Resolve(fs.cwd, userData)) <= Canon(fs, joined)
  }

  /** Which roots are let through although the private directory lies below them, or above. */
  predicate SharesTree(root: Path, private: Path) {
    (root < private && !StartsWith(private[|root|], "..")) || private < root
  }

  lemma AcceptedPrivateSharesTree(fs: FileSystem, root: Path, userData: string, relative: string)
    requires IsTree(fs) && Canonical(fs, root) && ValidPath(root) && ReachesPrivate(fs, root, userData, relative)
    ensures SharesTree(root, Canon(fs, Resolve(fs.cwd, userData)))
  {
    var joined := Resolve(root, relative);
    var leaf := Real(fs, joined).path;
    RealIsCanonical(fs, joined);
    assert ValidPath(leaf);
    AcceptedPathStaysUnderRoot(fs, root, joined);
    RelativeIsPrefix(root, leaf);
    RealOfCanonical(fs, root);
  }

  /**
   The protection is one of roots, not of paths: given a root that the guard lets through,
   some existing entry at or under the private directory is accepted if and only if the
   private directory lies below the root under a name that does not start with two dots
   (or above it, under one that does).
   */
  lemma ReachesPrivateIff(fs: FileSystem, root: Path, userData: string)
    requires IsTree(fs) && Canonical(fs, root) && ValidPath(root) && AdmissibleRoot(fs, root, "", userData)
    requires Canonical(fs, Canon(fs, Resolve(fs.cwd, userData)))
    ensures (exists relative :: ReachesPrivate(fs, root, userData, relative)) <==>
            SharesTree(root, Canon(fs, Resolve(fs.cwd, userData)))
  {
    var private := Canon(fs, Resolve(fs.cwd, userData));
    if relative :| ReachesPrivate(fs, root, userData, relative) {
      AcceptedPrivateSharesTree(fs, root, userData, relative);
    }
    if SharesTree(root, private) {
      ReachablePrivate(fs, root, userData, if root < private then private else root);
    }
  }

  lemma ReachablePrivate(fs: FileSystem, root: Path, userData: string, target: Path)
    requires IsTree(fs) && ValidPath(root) && AdmissibleRoot(fs, root, "", userData) && Canonical(fs, target)
    requires target == root || (root < target && !StartsWith(target[|root|], ".."))
    requires Canon(fs, Resolve(fs.cwd, userData)) <= target
    ensures ReachesPrivate(fs, root, userData, JoinNames(target[|root|..]))
  {
    assert ValidPath(target);
    var names := target[|root|..];
    assert ValidPath(names) && root + names == target;
    ResolveJoined(root, names);
    CanonicalIsAccepted(fs, root, target);
  }

  lemma CanonicalIsFound(fs: FileSystem, p: Path)
    requires IsTree(fs) && Canonical(fs, p)
    ensures Lstat(fs, p) == Found(fs.nodes[p])
  {
    if p != [] {
      var dir, name := Parent(p), p[|p| - 1];
      ParentCanonical(fs, p);
      RealOfCanonical(fs, dir);
      assert IsDir(fs, p[..|p| - 1]) && dir + [name] == p;
    }
  }

  /** An entry that no link leads to is found, and accepted if it is inside the root. */
  lemma CanonicalIsAccepted(fs: FileSystem, root: Path, p: Path)
    requires IsTree(fs) && ValidPath(root) && ValidPath(p) && Canonical(fs, p)
    requires p == root || (root < p && !StartsWith(p[|root|], ".."))
    ensures InsideRoot(root, p) && Lstat(fs, p).Found? && Accepts(fs, root, p) && Canon(fs, p) == p
  {
    RelativeIsPrefix(root, p);
    RealOfCanonical(fs, p);
    CanonicalIsFound(fs, p);
    assert LeafAllowed(fs, root, p, fs.nodes[p]);
  }
}
