/** electron/file-path-guard.ts: canonical forms and the two containment checks built on them. */
module FilePathGuard {
  import opened PosixPaths

  /**
   The canonical form, by reference: the real path of the deepest ancestor that resolves
   at all, followed by the components below it.  The root resolves, so this always exists.
   */
  function Canon(fs: FileSystem, p: Path): Path
    decreases |p|
  {
    match Real(fs, p)
    case At(q, _) => q
    case Err(_) => if p == [] then p else Canon(fs, Parent(p)) + [p[|p| - 1]]
  }

  function Reversed(names: seq<string>): (r: seq<string>)
    ensures |r| == |names|
  {
    if names == [] then [] else Reversed(names[1..]) + [names[0]]
  }

  /** `canonicalize`: walks up, pushing the unresolvable names, and appends them back reversed. */
  method Canonicalize(fs: FileSystem, raw: string) returns (canonical: Path)
    requires IsTree(fs)
    ensures canonical == Canon(fs, Resolve(fs.cwd, raw))
  {
    var resolved := Resolve(fs.cwd, raw);
    var current := resolved;
    var tail: seq<string> := [];
    while true
      invariant Canon(fs, resolved) == Canon(fs, current) + Reversed(tail)
      decreases |current|
    {
      var walked := Real(fs, current);
      if walked.At? {
        return if tail != [] then walked.path + Reversed(tail) else walked.path;
      }
      var parent := Parent(current);
      if parent == current {
        return resolved;
      }
      CanonStep(fs, current, tail);
      tail := tail + [current[|current| - 1]];
      current := parent;
    }
  }

  lemma CanonStep(fs: FileSystem, p: Path, tail: seq<string>)
    requires p != [] && Real(fs, p).Err?
    ensures Canon(fs, Parent(p)) + Reversed(tail + [p[|p| - 1]]) == Canon(fs, p) + Reversed(tail)
  {
    ReversedPush(tail, p[|p| - 1]);
  }

  lemma {:induction false} ReversedPush(names: seq<string>, name: string)
    ensures Reversed(names + [name]) == [name] + Reversed(names)
  {
    if names != [] {
      assert (names + [name])[1..] == names[1..] + [name];
      ReversedPush(names[1..], name);
    }
  }

  /** `n` is the length of the deepest ancestor of `p` that resolves. */
  ghost predicate IsDeepest(fs: FileSystem, p: Path, n: nat) {
    && n <= |p| && Real(fs, p[..n]).At?
    && forall k | n < k <= |p| :: Real(fs, p[..k]).Err?
  }

  /** The canonical form is the real path of the deepest resolvable ancestor plus the missing tail, in order. */
  lemma {:induction false} CanonIsDeepest(fs: FileSystem, p: Path) returns (n: nat)
    ensures IsDeepest(fs, p, n)
    ensures Canon(fs, p) == Real(fs, p[..n]).path + p[n..]
    decreases |p|
  {
    if Real(fs, p).At? {
      n := |p|;
      assert p[..n] == p;
    } else {
      assert p != [];
      n := CanonIsDeepest(fs, Parent(p));
      assert Parent(p)[..n] == p[..n];
      assert Parent(p)[n..] + [p[|p| - 1]] == p[n..];
      forall k | n < k <= |p|
        ensures Real(fs, p[..k]).Err?
      {
        if k < |p| {
          assert Parent(p)[..k] == p[..k];
        } else {
          assert p[..k] == p;
        }
      }
    }
  }

  lemma DeepestDeterminesCanon(fs: FileSystem, p: Path, n: nat)
    requires IsDeepest(fs, p, n)
    ensures Canon(fs, p) == Real(fs, p[..n]).path + p[n..]
  {
    var m := CanonIsDeepest(fs, p);
    assert m == n;
  }

  lemma CanonIsValid(fs: FileSystem, p: Path)
    requires IsTree(fs) && ValidPath(p)
    ensures ValidPath(Canon(fs, p))
  {
    var n := CanonIsDeepest(fs, p);
    RealIsCanonical(fs, p[..n]);
    assert ValidPath(Real(fs, p[..n]).path);
  }

  // --------------------------------------------------------------- idempotence

  /** One more component after a resolvable path: the walk goes on where it stands. */
  lemma RealStep(fs: FileSystem, p: Path, n: nat)
    requires n < |p| && Real(fs, p[..n]).At?
    ensures Real(fs, p[..n + 1]) == Walk(fs, Real(fs, p[..n]).path, [p[n]], Real(fs, p[..n]).left)
  {
    WalkSplits(fs, [], p[..n], [p[n]], fs.maxLinks);
    assert p[..n] + [p[n]] == p[..n + 1];
  }

  /** The first unresolvable component, tried again below the real path with the full link budget. */
  function Retried(fs: FileSystem, p: Path, n: nat): Walked
    requires n < |p| && Real(fs, p[..n]).At?
  {
    Real(fs, Real(fs, p[..n]).path + [p[n]])
  }

  lemma RetriedWalk(fs: FileSystem, p: Path, n: nat)
    requires IsTree(fs) && n < |p| && Real(fs, p[..n]).At?
    ensures Retried(fs, p, n) == Walk(fs, Real(fs, p[..n]).path, [p[n]], fs.maxLinks)
  {
    var r := Real(fs, p[..n]).path;
    RealIsCanonical(fs, p[..n]);
    WalkSplits(fs, [], r, [p[n]], fs.maxLinks);
  }

  /** A real path and a tail that fails at once is already canonical. */
  lemma CanonOfFailingTail(fs: FileSystem, r: Path, tail: seq<string>)
    requires IsTree(fs) && Canonical(fs, r)
    requires tail != [] ==> Real(fs, r + [tail[0]]).Err?
    ensures Canon(fs, r + tail) == r + tail
  {
    var q := r + tail;
    RealOfCanonical(fs, r);
    assert q[..|r|] == r && q[|r|..] == tail;
    forall k | |r| < k <= |q|
      ensures Real(fs, q[..k]).Err?
    {
      assert q[..k][..|r| + 1] == r + [tail[0]];
      RealOfPrefix(fs, q[..k], |r| + 1);
    }
    DeepestDeterminesCanon(fs, q, |r|);
  }

  /** If the retry resolves, the component is a link, and its canonical form is elsewhere. */
  lemma CanonOfResolvingTail(fs: FileSystem, r: Path, tail: seq<string>)
    requires IsTree(fs) && Canonical(fs, r) && tail != [] && Real(fs, r + [tail[0]]).At?
    requires r + [tail[0]] in fs.nodes && fs.nodes[r + [tail[0]]].Link?
    ensures Canon(fs, r + tail) != r + tail
  {
    var q := r + tail;
    var n := CanonIsDeepest(fs, q);
    assert q[..|r| + 1] == r + [tail[0]];
    assert n >= |r| + 1;
    var resolvedTo := Real(fs, q[..n]).path;
    RealIsCanonical(fs, q[..n]);
    if resolvedTo + q[n..] == q {
      assert q[..n] + q[n..] == q;
      assert resolvedTo == q[..n];
      assert resolvedTo[..|r| + 1] == r + [tail[0]];
      NoLinkOnCanonicalPath(fs, resolvedTo, |r| + 1);
    }
  }

  lemma NoLinkOnCanonicalPath(fs: FileSystem, p: Path, k: nat)
    requires Canonical(fs, p) && k <= |p|
    ensures p[..k] in fs.nodes && !fs.nodes[p[..k]].Link?
  {
    if k == |p| {
      assert p[..k] == p;
    }
  }

  lemma LinkLimitMeansLink(fs: FileSystem, dir: Path, name: string, links: nat)
    requires ValidName(name) && Walk(fs, dir, [name], links) != Walk(fs, dir, [name], fs.maxLinks)
    requires links <= fs.maxLinks && Walk(fs, dir, [name], links).Err?
    ensures Walk(fs, dir, [name], links) == Err(ELOOP)
    ensures dir + [name] in fs.nodes && fs.nodes[dir + [name]].Link?
  {
    WalkMoreLinks(fs, dir, [name], links, fs.maxLinks - links);
    assert [name][1..] == [];
  }

  /**
   Canonicalizing twice is canonicalizing once, if and only if everything resolved or the
   first component that did not resolve still does not when retried from its real parent.
   */
  lemma {:induction false} CanonIdempotentIff(fs: FileSystem, p: Path, n: nat)
    requires IsTree(fs) && ValidPath(p) && IsDeepest(fs, p, n)
    ensures Canon(fs, Canon(fs, p)) == Canon(fs, p) <==> n == |p| || Retried(fs, p, n).Err?
  {
    DeepestDeterminesCanon(fs, p, n);
    var r, tail := Real(fs, p[..n]).path, p[n..];
    RealIsCanonical(fs, p[..n]);
    if n == |p| || Retried(fs, p, n).Err? {
      CanonOfFailingTail(fs, r, tail);
    } else {
      RealStep(fs, p, n);
      RetriedWalk(fs, p, n);
      WalkIsCanonical(fs, [], p[..n], fs.maxLinks);
      LinkLimitMeansLink(fs, r, p[n], Real(fs, p[..n]).left);
      CanonOfResolvingTail(fs, r, tail);
    }
  }

  /** Unless the walk stopped for too many links, canonical forms are fixed points. */
  lemma {:induction false} CanonIdempotent(fs: FileSystem, p: Path, n: nat)
    requires IsTree(fs) && ValidPath(p) && IsDeepest(fs, p, n)
    requires n < |p| ==> Real(fs, p[..n + 1]) != Err(ELOOP)
    ensures Canon(fs, Canon(fs, p)) == Canon(fs, p)
  {
    if n < |p| {
      RealStep(fs, p, n);
      RetriedWalk(fs, p, n);
      WalkIsCanonical(fs, [], p[..n], fs.maxLinks);
      var left := Real(fs, p[..n]).left;
      WalkMoreLinks(fs, Real(fs, p[..n]).path, [p[n]], left, fs.maxLinks - left);
    }
    CanonIdempotentIff(fs, p, n);
  }

  lemma SplitOneName(c: char)
    requires c != '/'
    ensures Split([c]) == [[c]] && Split(['/', c]) == ["", [c]]
  {
    SplitPushed("", c);
    SplitPushed("", '/');
    SplitPushed(['/'], c);
    assert "" + [c] == [c] && "" + ['/'] == ['/'] && ['/'] + [c] == ['/', c];
    assert [""][..0] + ["" + [c]] == [[c]];
    assert ["", ""][..1] + ["" + [c]] == ["", [c]];
  }

  lemma SplitShortPaths()
    ensures Split("d") == ["d"] && Split("/d") == ["", "d"]
  {
    SplitOneName('d');
  }

  /** A link `a` to directory `d`, in it a link `b` back to `d`, and a limit of one link. */
  function TwoLinks(): FileSystem {
    FileSystem(map[[] := Dir(true), ["d"] := Dir(true), ["a"] := Link("d"), ["d", "b"] := Link("/d")], 1, [])
  }

  lemma TwoLinksWalks()
    ensures Real(TwoLinks(), ["a"]) == At(["d"], 0) && Real(TwoLinks(), ["d", "b"]) == At(["d"], 0)
  {
    var fs := TwoLinks();
    SplitShortPaths();
    assert [] + ["d"] == ["d"] && [] + ["a"] == ["a"] && ["d"] + ["b"] == ["d", "b"];
    assert ["d", "b"][1..] == ["b"] && ["", "d"][1..] == ["d"];
    assert Walk(fs, [], ["d"], 0) == At(["d"], 0) by { assert ["d"][1..] == []; }
    assert Split("d") + ["a"][1..] == ["d"];
    assert Walk(fs, [], ["", "d"], 0) == At(["d"], 0);
    assert Split("/d") + ["b"][1..] == ["", "d"];
    assert Walk(fs, ["d"], ["b"], 1) == At(["d"], 0);
  }

  lemma TwoLinksLimit()
    ensures Real(TwoLinks(), ["a", "b"]) == Err(ELOOP)
  {
    var fs := TwoLinks();
    TwoLinksWalks();
    assert ["a"] + ["b"] == ["a", "b"] && ["d"] + ["b"] == ["d", "b"];
    WalkSplits(fs, [], ["a"], ["b"], 1);
    assert Walk(fs, ["d"], ["b"], 0) == Err(ELOOP);
  }

  /** Two links in a row, one allowed: canonicalizing again goes further. */
  lemma CanonNotIdempotentAtLinkLimit()
    ensures IsTree(TwoLinks())
    ensures Canon(TwoLinks(), ["a", "b"]) == ["d", "b"] && Canon(TwoLinks(), ["d", "b"]) == ["d"]
  {
    TwoLinksWalks();
    TwoLinksLimit();
    assert Parent(["a", "b"]) == ["a"] && ["d"] + ["b"] == ["d", "b"];
  }

  // -------------------------------------------------------------- containment

  /** The containment test on two canonical forms. */
  predicate IsInside(dir: Path, target: Path) {
    RelativeIsInside(Relative(dir, target))
  }

  /** `isPathInsideDir`. */
  predicate IsPathInsideDir(fs: FileSystem, dir: string, target: string)
    requires IsTree(fs)
  {
    target != "" && IsInside(Canon(fs, Resolve(fs.cwd, dir)), Canon(fs, Resolve(fs.cwd, target)))
  }

  /** `assertPathOutside` does not throw. */
  predicate IsPathOutside(fs: FileSystem, dir: string, candidate: string)
    requires IsTree(fs)
  {
    && Canon(fs, Resolve(fs.cwd, candidate)) != Canon(fs, Resolve(fs.cwd, dir))
    && !IsPathInsideDir(fs, dir, candidate)
  }

  /** Strictly inside means: canonical forms in strict prefix order, next name not starting with two dots. */
  lemma InsideIsStrictPrefix(fs: FileSystem, dir: string, target: string)
    requires IsTree(fs)
    ensures var d, t := Canon(fs, Resolve(fs.cwd, dir)), Canon(fs, Resolve(fs.cwd, target));
            IsPathInsideDir(fs, dir, target) <==> target != "" && d < t && !StartsWith(t[|d|], "..")
  {
    CanonIsValid(fs, Resolve(fs.cwd, dir));
    CanonIsValid(fs, Resolve(fs.cwd, target));
    RelativeIsPrefix(Canon(fs, Resolve(fs.cwd, dir)), Canon(fs, Resolve(fs.cwd, target)));
  }

  lemma {:induction false} InsideIsIrreflexive(fs: FileSystem, dir: string)
    requires IsTree(fs)
    ensures !IsPathInsideDir(fs, dir, dir)
  {
    InsideIsStrictPrefix(fs, dir, dir);
  }

  lemma {:induction false} InsideIsTransitive(fs: FileSystem, a: string, b: string, c: string)
    requires IsTree(fs)
    requires IsPathInsideDir(fs, a, b) && IsPathInsideDir(fs, b, c)
    ensures IsPathInsideDir(fs, a, c)
  {
    InsideIsStrictPrefix(fs, a, b);
    InsideIsStrictPrefix(fs, b, c);
    InsideIsStrictPrefix(fs, a, c);
    var ca, cb, cc := Canon(fs, Resolve(fs.cwd, a)), Canon(fs, Resolve(fs.cwd, b)), Canon(fs, Resolve(fs.cwd, c));
    assert cc[..|cb|] == cb && cc[|ca|] == cb[|ca|];
  }

  /**
   The guard lets a candidate through exactly if its canonical form is not the protected
   directory and not below it -- or is below a child whose name starts with two dots, or
   the candidate is the empty string and only equality is looked at.
   */
  lemma OutsideIff(fs: FileSystem, dir: string, candidate: string)
    requires IsTree(fs)
    ensures var d, c := Canon(fs, Resolve(fs.cwd, dir)), Canon(fs, Resolve(fs.cwd, candidate));
            IsPathOutside(fs, dir, candidate) <==>
            d != c && (candidate == "" || !(d < c) || StartsWith(c[|d|], ".."))
  {
    InsideIsStrictPrefix(fs, dir, candidate);
  }
}
