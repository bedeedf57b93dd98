/**
 POSIX paths as Node's `path` module treats them, and a filesystem tree with symbolic
 links, permissions and a limit on link chains, as `realpath` and `lstat` see it.
 An absolute normalized path is the sequence of its components; raw paths are strings.
 */
module PosixPaths {
  type Path = seq<string>

  predicate ValidName(name: string) {
    name != "" && name != "." && name != ".." && '/' !in name
  }

  predicate ValidPath(p: Path) {
    forall i | 0 <= i < |p| :: ValidName(p[i])
  }

  /** `path.dirname`; the filesystem root is its own parent. */
  function Parent(p: Path): Path {
    if p == [] then [] else p[..|p| - 1]
  }

  /** The pieces of a raw path between its slashes. */
  function Split(raw: string): (segments: seq<string>)
    ensures |segments| > 0
    ensures forall i | 0 <= i < |segments| :: '/' !in segments[i]
  {
    if raw == "" then [""]
    else
      var front := Split(raw[..|raw| - 1]);
      if raw[|raw| - 1] == '/' then front + [""]
      else front[..|front| - 1] + [front[|front| - 1] + [raw[|raw| - 1]]]
  }

  predicate IsAbsolute(raw: string) {
    raw != "" && raw[0] == '/'
  }

  /** Lexical normalization: `.` and empty segments vanish, `..` drops a component. */
  function Normalize(base: Path, segments: seq<string>): (p: Path)
    requires ValidPath(base) && forall i | 0 <= i < |segments| :: '/' !in segments[i]
    ensures ValidPath(p)
    decreases |segments|
  {
    if segments == [] then base
    else if segments[0] == "" || segments[0] == "." then Normalize(base, segments[1..])
    else if segments[0] == ".." then Normalize(Parent(base), segments[1..])
    else Normalize(base + [segments[0]], segments[1..])
  }

  lemma {:induction false} SplitWithoutSlash(raw: string)
    requires '/' !in raw
    ensures Split(raw) == [raw]
  {
    if raw != "" {
      var front := raw[..|raw| - 1];
      SplitWithoutSlash(front);
      assert front + [raw[|raw| - 1]] == raw;
    }
  }

  lemma {:induction false} JoinSnoc(names: seq<string>, last: string)
    requires names != []
    ensures JoinNames(names + [last]) == JoinNames(names) + "/" + last
  {
    assert (names + [last])[1..] == names[1..] + [last];
    if |names| == 1 {
      assert names[1..] + [last] == [last];
    } else {
      JoinSnoc(names[1..], last);
    }
  }

  lemma {:induction false} JoinExtendLast(names: seq<string>, c: char)
    requires names != []
    ensures JoinNames(names[..|names| - 1] + [names[|names| - 1] + [c]]) == JoinNames(names) + [c]
  {
    var front, last := names[..|names| - 1], names[|names| - 1];
    assert names == front + [last];
    if front == [] {
      assert front + [last + [c]] == [last + [c]];
    } else {
      JoinSnoc(front, last);
      JoinSnoc(front, last + [c]);
    }
  }

  /** Splitting loses nothing: joined by slashes the segments are the raw path. */
  lemma {:induction false} SplitJoins(raw: string)
    ensures JoinNames(Split(raw)) == raw
  {
    if raw != "" {
      var front, c := raw[..|raw| - 1], raw[|raw| - 1];
      SplitJoins(front);
      assert front + [c] == raw;
      if c == '/' {
        JoinSnoc(Split(front), "");
      } else {
        JoinExtendLast(Split(front), c);
      }
    }
  }

  /** `path.resolve(base, raw)`. */
  function Resolve(base: Path, raw: string): (p: Path)
    requires ValidPath(base)
    ensures ValidPath(p)
  {
    Normalize(if IsAbsolute(raw) then [] else base, Split(raw))
  }

  function JoinNames(names: seq<string>): string {
    if names == [] then ""
    else if |names| == 1 then names[0]
    else names[0] + "/" + JoinNames(names[1..])
  }

  /** One more character at the end. */
  function Pushed(segments: seq<string>, c: char): seq<string>
    requires segments != []
  {
    if c == '/' then segments + [""]
    else segments[..|segments| - 1] + [segments[|segments| - 1] + [c]]
  }

  lemma SplitPushed(raw: string, c: char)
    ensures Split(raw + [c]) == Pushed(Split(raw), c)
  {
    assert (raw + [c])[..|raw|] == raw;
  }

  lemma PushedBehind(first: string, segments: seq<string>, c: char)
    requires segments != []
    ensures Pushed([first] + segments, c) == [first] + Pushed(segments, c)
  {
    assert ([first] + segments)[..|segments|] == [first] + segments[..|segments| - 1];
  }

  lemma {:induction false} SplitAfterSlash(first: string, rest: string)
    requires '/' !in first
    ensures Split(first + "/" + rest) == [first] + Split(rest)
  {
    if rest == "" {
      SplitWithoutSlash(first);
      SplitPushed(first, '/');
      assert first + "/" + rest == first + ['/'];
    } else {
      var front, c := rest[..|rest| - 1], rest[|rest| - 1];
      SplitAfterSlash(first, front);
      SplitPushed(first + "/" + front, c);
      SplitPushed(front, c);
      PushedBehind(first, Split(front), c);
      assert front + [c] == rest;
      assert first + "/" + rest == first + "/" + front + [c];
    }
  }

  /** Joined names split into themselves. */
  lemma {:induction false} SplitOfJoin(names: seq<string>)
    requires names != [] && ValidPath(names)
    ensures Split(JoinNames(names)) == names
  {
    assert ValidName(names[0]);
    if |names| == 1 {
      SplitWithoutSlash(names[0]);
    } else {
      SplitOfJoin(names[1..]);
      SplitAfterSlash(names[0], JoinNames(names[1..]));
    }
  }

  lemma {:induction false} NormalizeNames(base: Path, names: Path)
    requires ValidPath(base) && ValidPath(names)
    ensures Normalize(base, names) == base + names
    decreases |names|
  {
    if names == [] {
      assert base + names == base;
    } else {
      assert ValidName(names[0]);
      NormalizeNames(base + [names[0]], names[1..]);
      assert base + [names[0]] + names[1..] == base + names;
    }
  }

  /** Every path below a base can be written relative to it. */
  lemma ResolveJoined(base: Path, names: Path)
    requires ValidPath(base) && ValidPath(names)
    ensures Resolve(base, JoinNames(names)) == base + names && !IsAbsolute(JoinNames(names))
  {
    if names == [] {
      assert Normalize(base, [""][1..]) == base && base + names == base;
    } else {
      assert ValidName(names[0]);
      JoinStart(names);
      SplitOfJoin(names);
      NormalizeNames(base, names);
    }
  }

  /** An absolute path resolves to itself, from wherever. */
  lemma ResolveAbsolute(base: Path, names: Path)
    requires ValidPath(base) && ValidPath(names)
    ensures Resolve(base, "/" + JoinNames(names)) == names && IsAbsolute("/" + JoinNames(names))
  {
    var rest := JoinNames(names);
    var raw := "/" + rest;
    assert "" + "/" + rest == raw && raw[0] == '/';
    SplitAfterSlash("", rest);
    assert Split(raw)[0] == "" && Split(raw)[1..] == Split(rest);
    assert Resolve(base, raw) == Normalize([], Split(rest));
    ResolveJoined([], names);
    assert Resolve([], rest) == Normalize([], Split(rest));
    assert [] + names == names;
  }

  function CommonLength(a: Path, b: Path): (n: nat)
    ensures n <= |a| && n <= |b| && a[..n] == b[..n]
    ensures n < |a| && n < |b| ==> a[n] != b[n]
  {
    if a == [] || b == [] || a[0] != b[0] then 0 else 1 + CommonLength(a[1..], b[1..])
  }

  /** `path.relative(from, to)`. */
  function Relative(from: Path, to: Path): string {
    var n := CommonLength(from, to);
    JoinNames(seq(|from| - n, _ => "..") + to[n..])
  }

  predicate StartsWith(s: string, prefix: string) {
    prefix <= s
  }

  /** `rel !== '' && !rel.startsWith('..') && !path.isAbsolute(rel)`. */
  predicate RelativeIsInside(rel: string) {
    rel != "" && !StartsWith(rel, "..") && !IsAbsolute(rel)
  }

  /** `_isInsideRoot` of electron/sync-path-resolver.ts. */
  predicate InsideRoot(root: Path, candidate: Path) {
    candidate == root || RelativeIsInside(Relative(root, candidate))
  }

  lemma JoinStart(names: seq<string>)
    requires names != [] && (ValidName(names[0]) || names[0] == "..")
    ensures var rel := JoinNames(names);
            rel != "" && !IsAbsolute(rel) && (StartsWith(rel, "..") <==> StartsWith(names[0], ".."))
  {
    var first, rel := names[0], JoinNames(names);
    assert first <= rel;
    assert first[0] == rel[0];
    if |first| == 1 {
      assert first != "." ==> first[0] != '.';
    } else {
      assert rel[..2] == first[..2];
    }
  }

  /**
   The textual test on `path.relative` is the component-prefix relation -- except that a
   child whose own name begins with two dots counts as outside.
   */
  lemma RelativeIsPrefix(dir: Path, target: Path)
    requires ValidPath(dir) && ValidPath(target)
    ensures RelativeIsInside(Relative(dir, target)) <==>
            dir < target && !StartsWith(target[|dir|], "..")
  {
    var n := CommonLength(dir, target);
    var names := seq(|dir| - n, _ => "..") + target[n..];
    if names == [] {
      assert dir == target[..n] == target;
    } else {
      JoinStart(names);
      if n == |dir| {
        assert names == target[n..] && dir == target[..n];
      } else {
        assert names[0] == "..";
        assert n < |target| ==> dir[n] != target[n];
      }
    }
  }

  /** `_isInsideRoot`: the root itself, or strictly below it under a name that does not begin with two dots. */
  lemma InsideRootIff(root: Path, candidate: Path)
    requires ValidPath(root) && ValidPath(candidate)
    ensures InsideRoot(root, candidate) <==>
            candidate == root || (root < candidate && !(".." <= candidate[|root|]))
  {
    RelativeIsPrefix(root, candidate);
  }

  // ------------------------------------------------------------ the filesystem

  datatype Node = Dir(searchable: bool) | File | Link(target: string)

  /** `maxLinks` is the system's bound on links followed in one resolution. */
  datatype FileSystem = FileSystem(nodes: map<Path, Node>, maxLinks: nat, cwd: Path)

  predicate IsDir(fs: FileSystem, p: Path) {
    p in fs.nodes && fs.nodes[p].Dir?
  }

  /** The root is a directory and names are valid; a tree needs no more than this here. */
  ghost predicate IsTree(fs: FileSystem) {
    && IsDir(fs, [])
    && (forall p {:trigger ValidPath(p)} | p in fs.nodes :: ValidPath(p))
    && ValidPath(fs.cwd)
  }

  datatype Errno = ENOENT | ENOTDIR | EACCES | ELOOP

  datatype Walked = At(path: Path, left: nat) | Err(errno: Errno)

  /** Kernel path resolution from directory `cur`, following links, at most `links` of them. */
  function Walk(fs: FileSystem, cur: Path, rest: seq<string>, links: nat): Walked
    decreases links, |rest|
  {
    if rest == [] then At(cur, links)
    else if !IsDir(fs, cur) then Err(ENOTDIR)
    else if !fs.nodes[cur].searchable then Err(EACCES)
    else if rest[0] == "" || rest[0] == "." then Walk(fs, cur, rest[1..], links)
    else if rest[0] == ".." then Walk(fs, Parent(cur), rest[1..], links)
    else
      var child := cur + [rest[0]];
      if child !in fs.nodes then Err(ENOENT)
      else if !fs.nodes[child].Link? then Walk(fs, child, rest[1..], links)
      else if links == 0 then Err(ELOOP)
      else
        var target := fs.nodes[child].target;
        Walk(fs, if IsAbsolute(target) then [] else cur, Split(target) + rest[1..], links - 1)
  }

  /** `fs.realpathSync.native` on an absolute path. */
  function Real(fs: FileSystem, p: Path): Walked {
    Walk(fs, [], p, fs.maxLinks)
  }

  /** The same on a raw path, which the kernel does not normalize first. */
  function RealRaw(fs: FileSystem, raw: string): Walked {
    Walk(fs, if IsAbsolute(raw) then [] else fs.cwd, Split(raw), fs.maxLinks)
  }

  datatype Stat = Found(node: Node) | StatErr(errno: Errno)

  /** `fs.lstatSync`: follows everything but the last component. */
  function Lstat(fs: FileSystem, p: Path): Stat {
    if p == [] then (if [] in fs.nodes then Found(fs.nodes[[]]) else StatErr(ENOENT))
    else
      match Real(fs, Parent(p))
      case Err(e) => StatErr(e)
      case At(dir, _) =>
        if !IsDir(fs, dir) then StatErr(ENOTDIR)
        else if !fs.nodes[dir].searchable then StatErr(EACCES)
        else if dir + [p[|p| - 1]] !in fs.nodes then StatErr(ENOENT)
        else Found(fs.nodes[dir + [p[|p| - 1]]])
  }

  /** Resolving `p` meets no link: every step is an entry of a searchable directory. */
  ghost predicate Canonical(fs: FileSystem, p: Path) {
    && p in fs.nodes && !fs.nodes[p].Link?
    && forall k | 0 <= k < |p| :: IsDir(fs, p[..k]) && fs.nodes[p[..k]].searchable
  }

  lemma ParentCanonical(fs: FileSystem, p: Path)
    requires IsTree(fs) && Canonical(fs, p)
    ensures Canonical(fs, Parent(p))
  {
    if p != [] {
      var q := Parent(p);
      assert IsDir(fs, p[..|p| - 1]);
      forall k | 0 <= k < |q|
        ensures IsDir(fs, q[..k]) && fs.nodes[q[..k]].searchable
      {
        assert q[..k] == p[..k];
      }
    }
  }

  lemma ChildCanonical(fs: FileSystem, dir: Path, name: string)
    requires Canonical(fs, dir) && IsDir(fs, dir) && fs.nodes[dir].searchable
    requires dir + [name] in fs.nodes && !fs.nodes[dir + [name]].Link?
    ensures Canonical(fs, dir + [name])
  {
    var p := dir + [name];
    forall k | 0 <= k < |p|
      ensures IsDir(fs, p[..k]) && fs.nodes[p[..k]].searchable
    {
      assert p[..k] == if k < |dir| then dir[..k] else dir;
    }
  }

  /** Whatever a resolution arrives at is canonical. */
  lemma {:induction false} WalkIsCanonical(fs: FileSystem, cur: Path, rest: seq<string>, links: nat)
    requires IsTree(fs) && Canonical(fs, cur)
    ensures var w := Walk(fs, cur, rest, links); w.At? ==> Canonical(fs, w.path) && w.left <= links
    decreases links, |rest|
  {
    if rest == [] || !IsDir(fs, cur) || !fs.nodes[cur].searchable {
    } else if rest[0] == "" || rest[0] == "." {
      WalkIsCanonical(fs, cur, rest[1..], links);
    } else if rest[0] == ".." {
      ParentCanonical(fs, cur);
      WalkIsCanonical(fs, Parent(cur), rest[1..], links);
    } else if cur + [rest[0]] in fs.nodes {
      var child := cur + [rest[0]];
      if !fs.nodes[child].Link? {
        ChildCanonical(fs, cur, rest[0]);
        WalkIsCanonical(fs, child, rest[1..], links);
      } else if links > 0 {
        var target := fs.nodes[child].target;
        WalkIsCanonical(fs, if IsAbsolute(target) then [] else cur, Split(target) + rest[1..], links - 1);
      }
    }
  }

  /** Resolution goes component by component: first `a`, then `b` with the links that are left. */
  lemma {:induction false} WalkSplits(fs: FileSystem, cur: Path, a: seq<string>, b: seq<string>, links: nat)
    ensures Walk(fs, cur, a + b, links) ==
            match Walk(fs, cur, a, links)
            case At(mid, left) => Walk(fs, mid, b, left)
            case Err(e) => Err(e)
    decreases links, |a|
  {
    if a == [] {
      assert a + b == b;
    } else {
      assert (a + b)[0] == a[0] && (a + b)[1..] == a[1..] + b;
      if !IsDir(fs, cur) || !fs.nodes[cur].searchable {
      } else if a[0] == "" || a[0] == "." {
        WalkSplits(fs, cur, a[1..], b, links);
      } else if a[0] == ".." {
        WalkSplits(fs, Parent(cur), a[1..], b, links);
      } else if cur + [a[0]] in fs.nodes {
        var child := cur + [a[0]];
        if !fs.nodes[child].Link? {
          WalkSplits(fs, child, a[1..], b, links);
        } else if links > 0 {
          var target := fs.nodes[child].target;
          assert Split(target) + (a[1..] + b) == Split(target) + a[1..] + b;
          WalkSplits(fs, if IsAbsolute(target) then [] else cur, Split(target) + a[1..], b, links - 1);
        }
      }
    }
  }

  /** A larger link budget changes nothing but "too many links". */
  lemma {:induction false} WalkMoreLinks(fs: FileSystem, cur: Path, rest: seq<string>, links: nat, extra: nat)
    ensures var w, w' := Walk(fs, cur, rest, links), Walk(fs, cur, rest, links + extra);
            && (w.At? ==> w' == At(w.path, w.left + extra))
            && (w.Err? && w.errno != ELOOP ==> w' == w)
    decreases links, |rest|
  {
    if rest == [] || !IsDir(fs, cur) || !fs.nodes[cur].searchable {
    } else if rest[0] == "" || rest[0] == "." {
      WalkMoreLinks(fs, cur, rest[1..], links, extra);
    } else if rest[0] == ".." {
      WalkMoreLinks(fs, Parent(cur), rest[1..], links, extra);
    } else if cur + [rest[0]] in fs.nodes {
      var child := cur + [rest[0]];
      if !fs.nodes[child].Link? {
        WalkMoreLinks(fs, child, rest[1..], links, extra);
      } else if links > 0 {
        var target := fs.nodes[child].target;
        WalkMoreLinks(fs, if IsAbsolute(target) then [] else cur, Split(target) + rest[1..], links - 1, extra);
      }
    }
  }

  lemma {:induction false} WalkCanonicalPath(fs: FileSystem, p: Path, k: nat, links: nat)
    requires IsTree(fs) && Canonical(fs, p) && k <= |p|
    ensures Walk(fs, p[..k], p[k..], links) == At(p, links)
    decreases |p| - k
  {
    if k == |p| {
      assert p[..k] == p;
    } else {
      var child := p[..k] + [p[k]];
      assert child == p[..k + 1] && p[k..][1..] == p[k + 1..];
      if k + 1 < |p| {
        assert IsDir(fs, p[..k + 1]);
      } else {
        assert child == p;
      }
      assert ValidPath(p);
      assert child in fs.nodes && !fs.nodes[child].Link? && ValidName(p[k]);
      WalkCanonicalPath(fs, p, k + 1, links);
    }
  }

  /** A canonical path resolves to itself without following a link. */
  lemma RealOfCanonical(fs: FileSystem, p: Path)
    requires IsTree(fs) && Canonical(fs, p)
    ensures Real(fs, p) == At(p, fs.maxLinks)
  {
    WalkCanonicalPath(fs, p, 0, fs.maxLinks);
    assert p[..0] == [] && p[0..] == p;
  }

  lemma RealIsCanonical(fs: FileSystem, p: Path)
    requires IsTree(fs) && Real(fs, p).At?
    ensures Canonical(fs, Real(fs, p).path) && Real(fs, Real(fs, p).path) == At(Real(fs, p).path, fs.maxLinks)
  {
    WalkIsCanonical(fs, [], p, fs.maxLinks);
    RealOfCanonical(fs, Real(fs, p).path);
  }

  /** An ancestor of a resolvable path is resolvable. */
  lemma RealOfPrefix(fs: FileSystem, p: Path, k: nat)
    requires k <= |p|
    ensures Real(fs, p[..k]).Err? ==> Real(fs, p) == Real(fs, p[..k])
  {
    WalkSplits(fs, [], p[..k], p[k..], fs.maxLinks);
    assert p[..k] + p[k..] == p;
  }

  /**
   Where no link is met, resolving in the filesystem and normalizing the text agree: the
   traversal check on the joined path speaks about the place the kernel would reach.
   */
  lemma {:induction false} NormalizeAgreesWithWalk(fs: FileSystem, base: Path, segments: seq<string>, links: nat)
    requires IsTree(fs) && ValidPath(base) && forall i | 0 <= i < |segments| :: '/' !in segments[i]
    requires forall p | p in fs.nodes :: !fs.nodes[p].Link?
    ensures var w := Walk(fs, base, segments, links); w.At? ==> w.path == Normalize(base, segments)
    decreases |segments|
  {
    if segments == [] {
    } else if segments[0] == "" || segments[0] == "." {
      NormalizeAgreesWithWalk(fs, base, segments[1..], links);
    } else if segments[0] == ".." {
      NormalizeAgreesWithWalk(fs, Parent(base), segments[1..], links);
    } else {
      NormalizeAgreesWithWalk(fs, base + [segments[0]], segments[1..], links);
    }
  }

  /** Adding a missing entry does not disturb a resolution that succeeded without it. */
  lemma {:induction false} WalkAfterCreate(fs: FileSystem, added: Path, node: Node, cur: Path, rest: seq<string>, links: nat)
    requires added !in fs.nodes && Walk(fs, cur, rest, links).At?
    ensures Walk(fs.(nodes := fs.nodes[added := node]), cur, rest, links) == Walk(fs, cur, rest, links)
    decreases links, |rest|
  {
    if rest != [] {
      if rest[0] == "" || rest[0] == "." {
        WalkAfterCreate(fs, added, node, cur, rest[1..], links);
      } else if rest[0] == ".." {
        WalkAfterCreate(fs, added, node, Parent(cur), rest[1..], links);
      } else {
        var child := cur + [rest[0]];
        if !fs.nodes[child].Link? {
          WalkAfterCreate(fs, added, node, child, rest[1..], links);
        } else {
          var target := fs.nodes[child].target;
          WalkAfterCreate(fs, added, node, if IsAbsolute(target) then [] else cur, Split(target) + rest[1..], links - 1);
        }
      }
    }
  }
}
