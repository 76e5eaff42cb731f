/** Resolving a tool's path argument inside the workspace, by the text of the path alone (sprouts/go/main.go). */
module WorkspacePath {
  import opened Text

  datatype Resolved = Within(abs: string, rel: string) | NotRepositoryRelative | Escapes

  // ---------------------------------------------------------------------------------------------
  // Rooted paths by their components
  // ---------------------------------------------------------------------------------------------

  /** A component that a clean path may have. */
  predicate Name(c: string) {
    c !in {"", ".", ".."} && Without(c, '/')
  }

  ghost predicate Names(cs: seq<string>) {
    forall k | 0 <= k < |cs| :: Name(cs[k])
  }

  /** One more component at the end of a clean rooted path; ".." at the root stays at the root. */
  function Enter(path: seq<string>, c: string): seq<string> {
    if c == "" || c == "." then path
    else if c != ".." then path + [c]
    else if path == [] then [] else path[..|path| - 1]
  }

  function Walk(path: seq<string>, cs: seq<string>): seq<string>
    decreases |cs|
  {
    if cs == [] then path else Walk(Enter(path, cs[0]), cs[1..])
  }

  predicate IsAbs(path: string) {
    HasPrefix(path, "/")
  }

  function Rooted(cs: seq<string>): string {
    "/" + Join(cs, "/")
  }

  /** The components of filepath.Clean of a rooted path. */
  function Cleaned(path: string): seq<string> {
    Walk([], Split(path, '/'))
  }

  /** filepath.Clean and filepath.Abs, for rooted results. */
  function Clean(path: string): string {
    Rooted(Cleaned(path))
  }

  function Abs(cwd: string, path: string): string {
    if IsAbs(path) then Clean(path) else Clean(cwd + "/" + path)
  }

  function Shared(a: seq<string>, b: seq<string>): nat {
    if a != [] && b != [] && a[0] == b[0] then 1 + Shared(a[1..], b[1..]) else 0
  }

  function Ups(n: nat): seq<string> {
    seq(n, _ => "..")
  }

  /** The components of filepath.Rel between clean rooted paths. */
  function RelParts(base: seq<string>, target: seq<string>): seq<string>
    ensures Shared(base, target) <= |base| && Shared(base, target) <= |target|
  {
    SharedBounds(base, target);
    Ups(|base| - Shared(base, target)) + target[Shared(base, target)..]
  }

  lemma {:induction false} SharedBounds(a: seq<string>, b: seq<string>)
    ensures Shared(a, b) <= |a| && Shared(a, b) <= |b|
    ensures a[..Shared(a, b)] == b[..Shared(a, b)]
    ensures Shared(a, b) == |a| <==> a <= b
  {
    if a != [] && b != [] && a[0] == b[0] {
      SharedBounds(a[1..], b[1..]);
      assert a == [a[0]] + a[1..] && b == [b[0]] + b[1..];
    }
  }

  function Rel(base: seq<string>, target: seq<string>): string {
    if RelParts(base, target) == [] then "." else Join(RelParts(base, target), "/")
  }

  // ---------------------------------------------------------------------------------------------
  // The execution-location check
  // ---------------------------------------------------------------------------------------------

  /** Every run of slashes shortened to one. */
  function Squeezed(s: string): string {
    if |s| < 2 then s
    else if s[0] == '/' && s[1] == '/' then Squeezed(s[1..])
    else [s[0]] + Squeezed(s[1..])
  }

  predicate Contains(s: string, part: string) {
    exists k | 0 <= k <= |s| :: part <= s[k..]
  }

  /** strings.ReplaceAll(s, "//", "/"). */
  function Halved(s: string): string {
    if |s| < 2 then s
    else if s[0] == '/' && s[1] == '/' then "/" + Halved(s[2..])
    else [s[0]] + Halved(s[1..])
  }

  /** "/u/v/" somewhere, "u/v/" at the start, or all of "u/v". */
  predicate RefusesPair(s: string, u: string, v: string) {
    || Contains(s, "/" + (u + "/" + v + "/"))
    || HasPrefix(s, u + "/" + v + "/")
    || s == u + "/" + v
  }

  predicate NamesExecutionLocation(normalized: string) {
    normalized == "~" || HasPrefix(normalized, "~/") || RefusesPair(normalized, ".tendril", "run-workspaces")
  }

  lemma {:induction false} SqueezedStart(s: string)
    requires s != ""
    ensures Squeezed(s) != "" && Squeezed(s)[0] == s[0]
  {
    if |s| >= 2 && s[0] == '/' && s[1] == '/' {
      SqueezedStart(s[1..]);
    }
  }

  /** What comes after a first character decides how it is squeezed only through its own squeezed form. */
  lemma SqueezedTail(c: char, s: string, t: string)
    requires Squeezed(s) == Squeezed(t)
    ensures Squeezed([c] + s) == Squeezed([c] + t)
  {
    assert ([c] + s)[1..] == s && ([c] + t)[1..] == t;
    if s != "" {
      SqueezedStart(s);
    }
    if t != "" {
      SqueezedStart(t);
    }
  }

  /** Replacing double slashes keeps the squeezed form. */
  lemma {:induction false} HalvedKeepsSqueezed(s: string)
    ensures Squeezed(Halved(s)) == Squeezed(s)
    ensures |Halved(s)| <= |s|
  {
    if |s| >= 2 {
      if s[0] == '/' && s[1] == '/' {
        HalvedKeepsSqueezed(s[2..]);
        SqueezedTail('/', Halved(s[2..]), s[2..]);
        assert s[1..] == "/" + s[2..];
      } else {
        HalvedKeepsSqueezed(s[1..]);
        SqueezedTail(s[0], Halved(s[1..]), s[1..]);
        assert s == [s[0]] + s[1..];
      }
    }
  }

  lemma {:induction false} HalvedShortens(s: string, k: nat)
    requires k + 1 < |s| && s[k] == '/' && s[k + 1] == '/'
    ensures |Halved(s)| < |s|
  {
    HalvedKeepsSqueezed(s[2..]);
    if !(s[0] == '/' && s[1] == '/') {
      HalvedShortens(s[1..], k - 1);
    }
  }

  lemma {:induction false} SqueezedIsFinal(s: string)
    requires forall k | 0 <= k < |s| - 1 :: !(s[k] == '/' && s[k + 1] == '/')
    ensures Squeezed(s) == s
  {
    if |s| >= 2 {
      assert !(s[0] == '/' && s[0 + 1] == '/');
      forall k | 0 <= k < |s[1..]| - 1 ensures !(s[1..][k] == '/' && s[1..][k + 1] == '/') {
        assert !(s[k + 1] == '/' && s[k + 1 + 1] == '/');
      }
      SqueezedIsFinal(s[1..]);
    }
  }

  lemma ContainsDoubleSlash(s: string)
    ensures Contains(s, "//") <==> exists k | 0 <= k < |s| - 1 :: s[k] == '/' && s[k + 1] == '/'
  {
    if k :| 0 <= k <= |s| && "//" <= s[k..] {
      assert s[k..][0] == '/' && s[k..][1] == '/';
      assert s[k] == '/' && s[k + 1] == '/';
    }
    if k :| 0 <= k < |s| - 1 && s[k] == '/' && s[k + 1] == '/' {
      assert "//" <= s[k..];
    }
  }

  /** rejectExecutionLocationPath: the loop ends, with every run of slashes shortened to one. */
  method RejectExecutionLocationPath(rawPath: string) returns (rejected: bool)
    ensures rejected <==> NamesExecutionLocation(Squeezed(TrimSpace(rawPath)))
  {
    var normalized := TrimSpace(rawPath);
    while Contains(normalized, "//")
      invariant Squeezed(normalized) == Squeezed(TrimSpace(rawPath))
      decreases |normalized|
    {
      ContainsDoubleSlash(normalized);
      ghost var k :| 0 <= k < |normalized| - 1 && normalized[k] == '/' && normalized[k + 1] == '/';
      HalvedShortens(normalized, k);
      HalvedKeepsSqueezed(normalized);
      normalized := Halved(normalized);
    }
    ContainsDoubleSlash(normalized);
    SqueezedIsFinal(normalized);
    rejected := NamesExecutionLocation(normalized);
  }

  // ---------------------------------------------------------------------------------------------
  // Resolution
  // ---------------------------------------------------------------------------------------------

  /** A blank path stands for the workspace root. */
  function Given(rawPath: string): string {
    if TrimSpace(rawPath) == "" then "." else rawPath
  }

  /** The absolute path that is asked for: filepath.Clean, after filepath.Join when it is relative. */
  function Asked(absRoot: string, path: string): string {
    Clean(if IsAbs(path) then path else absRoot + "/" + path)
  }

  /** resolveWorkspacePath. Where the process stands matters only to a relative workspace root. */
  function ResolveWorkspacePath(cwd: string, workspaceRoot: string, rawPath: string): Resolved {
    var path := Given(rawPath);
    var absRoot := Abs(cwd, workspaceRoot);
    var absPath := Asked(absRoot, path);
    var relPath := Rel(Cleaned(absRoot), Cleaned(absPath));
    if NamesExecutionLocation(Squeezed(TrimSpace(path))) then NotRepositoryRelative
    else if relPath == ".." || HasPrefix(relPath, "../") then Escapes
    else Within(absPath, relPath)
  }

  /** A path is u or goes on below u exactly when its first component is u. */
  lemma FirstComponent(s: string, u: string)
    requires Without(u, '/')
    ensures s == u || HasPrefix(s, u + "/") <==> Split(s, '/')[0] == u
  {
    JoinSplit(s, '/');
    if HasPrefix(s, u + "/") {
      assert s == u + "/" + s[|u| + 1..];
      SplitAtSeparator(u, s[|u| + 1..], '/');
    } else if s == u {
      SplitWithout(u, '/');
    }
  }

  lemma {:induction false} WalkConcat(path: seq<string>, a: seq<string>, b: seq<string>)
    ensures Walk(path, a + b) == Walk(Walk(path, a), b)
    decreases |a|
  {
    if a == [] {
      assert a + b == b;
    } else {
      assert (a + b)[1..] == a[1..] + b;
      WalkConcat(Enter(path, a[0]), a[1..], b);
    }
  }

  lemma {:induction false} WalkNames(path: seq<string>, names: seq<string>)
    requires Names(names)
    ensures Walk(path, names) == path + names
    decreases |names|
  {
    if names != [] {
      WalkNames(path + [names[0]], names[1..]);
      assert path + [names[0]] + names[1..] == path + names;
    }
  }

  lemma {:induction false} WalkStaysNames(path: seq<string>, cs: seq<string>)
    requires Names(path) && forall k | 0 <= k < |cs| :: Without(cs[k], '/')
    ensures Names(Walk(path, cs))
    decreases |cs|
  {
    if cs != [] {
      WalkStaysNames(Enter(path, cs[0]), cs[1..]);
    }
  }

  lemma CleanedIsNames(path: string)
    ensures Names(Cleaned(path))
  {
    SplitPieces(path, '/');
    WalkStaysNames([], Split(path, '/'));
  }

  /** A clean path reads back as the components it was made from. */
  lemma CleanedRooted(cs: seq<string>)
    requires Names(cs)
    ensures Cleaned(Rooted(cs)) == cs
  {
    assert Rooted(cs) == "" + "/" + Join(cs, "/");
    SplitConcat("", Join(cs, "/"), '/');
    if cs == [] {
      assert Split(Rooted(cs), '/') == ["", ""];
      assert ["", ""][1..] == [""];
    } else {
      SplitJoin(cs, '/');
      assert ([""] + cs)[1..] == cs;
      WalkNames([], cs);
    }
  }

  /** Going on from a clean path. */
  lemma CleanedOnward(cs: seq<string>, path: string)
    requires Names(cs)
    ensures Cleaned(Rooted(cs) + "/" + path) == Walk(cs, Split(path, '/'))
  {
    CleanedRooted(cs);
    SplitConcat(Rooted(cs), path, '/');
    WalkConcat([], Split(Rooted(cs), '/'), Split(path, '/'));
  }

  lemma RelOfDescendant(base: seq<string>, target: seq<string>)
    requires base <= target
    ensures RelParts(base, target) == target[|base|..]
  {
    SharedBounds(base, target);
    assert Ups(0) == [];
  }

  lemma RelInside(base: seq<string>, target: seq<string>)
    requires Names(target) && base <= target
    ensures Split(Rel(base, target), '/')[0] != ".."
  {
    var parts := RelParts(base, target);
    RelOfDescendant(base, target);
    if parts == [] {
      SplitWithout(".", '/');
    } else {
      assert forall k | 0 <= k < |parts| :: parts[k] == target[|base| + k] && Name(parts[k]);
      SplitJoin(parts, '/');
    }
  }

  lemma RelOutside(base: seq<string>, target: seq<string>)
    requires Names(target) && !(base <= target)
    ensures Split(Rel(base, target), '/')[0] == ".."
  {
    var parts := RelParts(base, target);
    SharedBounds(base, target);
    assert parts[0] == "..";
    forall k | 0 <= k < |parts| ensures Without(parts[k], '/') {
      assert parts[k] == ".." || Name(parts[k]);
    }
    SplitJoin(parts, '/');
  }

  /** The text test for a leading ".." sees exactly the targets outside the base. */
  lemma RelLeavesExactlyOutside(base: seq<string>, target: seq<string>)
    requires Names(base) && Names(target)
    ensures var rel := Rel(base, target); rel == ".." || HasPrefix(rel, "../") <==> !(base <= target)
  {
    FirstComponent(Rel(base, target), "..");
    if base <= target {
      RelInside(base, target);
    } else {
      RelOutside(base, target);
    }
  }

  /** The clean path that is asked for, by components. */
  function Target(root: seq<string>, path: string): seq<string> {
    if IsAbs(path) then Cleaned(path) else Walk(root, Split(path, '/'))
  }

  /** Apart from the paths that name an execution location, resolution succeeds exactly when the components of
      the workspace root begin those of the clean path that is asked for; what it returns is that path and what
      remains of it below the root. */
  lemma ResolvesExactlyWithinTheRoot(cwd: string, workspaceRoot: string, rawPath: string)
    ensures var root := Cleaned(Abs(cwd, workspaceRoot));
            var target := Target(root, Given(rawPath));
            var r := ResolveWorkspacePath(cwd, workspaceRoot, rawPath);
            && (r.NotRepositoryRelative? <==> NamesExecutionLocation(Squeezed(TrimSpace(Given(rawPath)))))
            && (r.Within? <==> !r.NotRepositoryRelative? && root <= target)
            && (r.Within? ==>
                  && r.abs == Rooted(target)
                  && r.rel == if root == target then "." else Join(target[|root|..], "/"))
  {
    var absRoot := Abs(cwd, workspaceRoot);
    var root := Cleaned(absRoot);
    RootIsClean(cwd, workspaceRoot);
    var path := Given(rawPath);
    var target := Target(root, path);
    CleanedIsNames(absRoot);
    CleanedOnward(root, path);
    CleanedIsNames(if IsAbs(path) then path else absRoot + "/" + path);
    CleanedRooted(target);
    RelLeavesExactlyOutside(root, target);
    if root <= target {
      RelOfDescendant(root, target);
    }
  }

  lemma RootIsClean(cwd: string, workspaceRoot: string)
    ensures var absRoot := Abs(cwd, workspaceRoot); absRoot == Rooted(Cleaned(absRoot)) && Names(Cleaned(absRoot))
  {
    var path := if IsAbs(workspaceRoot) then workspaceRoot else cwd + "/" + workspaceRoot;
    CleanedIsNames(path);
    CleanedRooted(Cleaned(path));
  }

  /** What is returned lies below the root: the relative path has no ".." component, and joining it to the root
      gives the absolute path. */
  lemma RelativePathLeadsBack(cwd: string, workspaceRoot: string, rawPath: string)
    ensures var r := ResolveWorkspacePath(cwd, workspaceRoot, rawPath);
            r.Within? ==>
              && (forall k | 0 <= k < |Split(r.rel, '/')| :: Split(r.rel, '/')[k] != "..")
              && Clean(Abs(cwd, workspaceRoot) + "/" + r.rel) == r.abs
              && !IsAbs(r.rel)
  {
    var r := ResolveWorkspacePath(cwd, workspaceRoot, rawPath);
    var root := Cleaned(Abs(cwd, workspaceRoot));
    var target := Target(root, Given(rawPath));
    ResolvesExactlyWithinTheRoot(cwd, workspaceRoot, rawPath);
    RootIsClean(cwd, workspaceRoot);
    TargetIsNames(root, Given(rawPath));
    if r.Within? {
      BelowLeadsBack(root, target);
    }
  }

  lemma BelowLeadsBack(root: seq<string>, target: seq<string>)
    requires Names(root) && Names(target) && root <= target
    ensures var rel := if root == target then "." else Join(target[|root|..], "/");
            && (forall k | 0 <= k < |Split(rel, '/')| :: Split(rel, '/')[k] != "..")
            && Clean(Rooted(root) + "/" + rel) == Rooted(target)
            && !IsAbs(rel)
  {
    if root == target {
      CleanedOnward(root, ".");
      SplitWithout(".", '/');
      assert ["."][1..] == [];
    } else {
      var below := target[|root|..];
      CleanedOnward(root, Join(below, "/"));
      SplitJoin(below, '/');
      WalkNames(root, below);
      assert target == root + below;
      assert Name(below[0]);
    }
  }

  lemma TargetIsNames(root: seq<string>, path: string)
    requires Names(root)
    ensures Names(Target(root, path))
  {
    SplitPieces(path, '/');
    CleanedIsNames(path);
    WalkStaysNames(root, Split(path, '/'));
  }

  // ---------------------------------------------------------------------------------------------
  // The execution-location check, by components
  // ---------------------------------------------------------------------------------------------

  /** Components i and i + 1 are u and v, and something follows them. */
  predicate FollowedAt(parts: seq<string>, i: nat, u: string, v: string) {
    i + 2 < |parts| && parts[i] == u && parts[i + 1] == v
  }

  lemma SplitPair(u: string, v: string)
    requires Without(u, '/') && Without(v, '/')
    ensures Split(u + "/" + v, '/') == [u, v]
  {
    SplitAtSeparator(u, v, '/');
    SplitWithout(v, '/');
  }

  lemma SplitPairFirst(u: string, v: string, y: string)
    requires Without(u, '/') && Without(v, '/')
    ensures Split(u + "/" + v + "/" + y, '/') == [u, v] + Split(y, '/')
  {
    SplitPair(u, v);
    SplitConcat(u + "/" + v, y, '/');
  }

  lemma SplitPairLater(x: string, u: string, v: string, y: string)
    requires Without(u, '/') && Without(v, '/')
    ensures Split(x + "/" + (u + "/" + v + "/" + y), '/') == Split(x, '/') + ([u, v] + Split(y, '/'))
  {
    SplitPairFirst(u, v, y);
    SplitConcat(x, u + "/" + v + "/" + y, '/');
  }

  lemma JoinPair(u: string, v: string)
    ensures Join([u, v], "/") == u + "/" + v
  {
    assert [u, v][1..] == [v];
  }

  lemma TakenApart(head: string, part: string, tail: string)
    requires part <= tail
    ensures head + tail == head + part + tail[|part|..]
  {
    assert tail == part + tail[|part|..];
  }

  /** A string that contains `part`, taken apart. */
  lemma Apart(s: string, part: string) returns (x: string, y: string)
    requires Contains(s, part)
    ensures s == x + part + y
  {
    var k :| 0 <= k <= |s| && part <= s[k..];
    x, y := s[..k], s[k..][|part|..];
    TakenApart(s[..k], part, s[k..]);
    assert s == s[..k] + s[k..];
  }

  lemma Together(x: string, part: string, y: string)
    ensures Contains(x + part + y, part)
  {
    assert (x + part + y)[|x|..] == part + y;
  }

  lemma RegroupSlash(x: string, middle: string, y: string)
    ensures x + "/" + (middle + y) == x + ("/" + middle) + y
  {
  }

  lemma ContainedPairFollows(s: string, u: string, v: string)
    requires Without(u, '/') && Without(v, '/') && Contains(s, "/" + (u + "/" + v + "/"))
    ensures exists i: nat :: i > 0 && FollowedAt(Split(s, '/'), i, u, v)
  {
    var x, y := Apart(s, "/" + (u + "/" + v + "/"));
    RegroupSlash(x, u + "/" + v + "/", y);
    SplitPairLater(x, u, v, y);
    FollowedLater(Split(x, '/'), u, v, Split(y, '/'));
  }

  lemma FollowedLater(before: seq<string>, u: string, v: string, later: seq<string>)
    requires later != []
    ensures FollowedAt(before + ([u, v] + later), |before|, u, v)
  {
  }

  lemma FollowingPairIsContained(s: string, i: nat, u: string, v: string)
    requires i > 0 && FollowedAt(Split(s, '/'), i, u, v)
    ensures Contains(s, "/" + (u + "/" + v + "/"))
  {
    var parts := Split(s, '/');
    var x, y := Join(parts[..i], "/"), Join(parts[i + 2..], "/");
    JoinSplit(s, '/');
    JoinConcat(parts[..i], [u, v] + parts[i + 2..], "/");
    JoinConcat([u, v], parts[i + 2..], "/");
    JoinPair(u, v);
    assert parts == parts[..i] + ([u, v] + parts[i + 2..]);
    RegroupSlash(x, u + "/" + v + "/", y);
    Together(x, "/" + (u + "/" + v + "/"), y);
  }

  lemma PairBegins(s: string, u: string, v: string)
    requires Without(u, '/') && Without(v, '/')
    ensures HasPrefix(s, u + "/" + v + "/") <==> FollowedAt(Split(s, '/'), 0, u, v)
  {
    var parts, begin := Split(s, '/'), u + "/" + v + "/";
    if HasPrefix(s, begin) {
      assert s == u + "/" + v + "/" + s[|begin|..];
      SplitPairFirst(u, v, s[|begin|..]);
    }
    if FollowedAt(parts, 0, u, v) {
      JoinSplit(s, '/');
      JoinConcat([u, v], parts[2..], "/");
      JoinPair(u, v);
      assert parts == [u, v] + parts[2..];
    }
  }

  lemma RefusesPairByComponents(s: string, u: string, v: string)
    requires Without(u, '/') && Without(v, '/')
    ensures RefusesPair(s, u, v) <==> Split(s, '/') == [u, v] || exists i: nat :: FollowedAt(Split(s, '/'), i, u, v)
  {
    var parts := Split(s, '/');
    SplitPair(u, v);
    JoinSplit(s, '/');
    JoinPair(u, v);
    PairBegins(s, u, v);
    if Contains(s, "/" + (u + "/" + v + "/")) {
      ContainedPairFollows(s, u, v);
    }
    if i: nat :| i > 0 && FollowedAt(parts, i, u, v) {
      FollowingPairIsContained(s, i, u, v);
    }
  }

  /** The check refuses exactly the paths whose first component is "~" and those with the components ".tendril"
      and "run-workspaces" one after the other, which must be followed by a slash or be the whole path. */
  lemma RefusedExactlyWhenNamed(normalized: string)
    ensures var parts := Split(normalized, '/');
            NamesExecutionLocation(normalized) <==>
            || parts[0] == "~" || parts == [".tendril", "run-workspaces"]
            || exists i: nat :: FollowedAt(parts, i, ".tendril", "run-workspaces")
  {
    FirstComponent(normalized, "~");
    RefusesPairByComponents(normalized, ".tendril", "run-workspaces");
  }
}
