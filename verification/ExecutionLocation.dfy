/** Which spellings of a path argument reach the execution location although it is refused by name
    (sprouts/go/main.go). */
module ExecutionLocation {
  import opened Sequences
  import opened Text
  import opened WorkspacePath

  const Tendril := ".tendril"
  const RunWorkspaces := "run-workspaces"
  const Location: seq<string> := [Tendril, RunWorkspaces]

  lemma LocationIsNames()
    ensures Names(Location) && Name(Tendril) && Name(RunWorkspaces)
    ensures Tendril != RunWorkspaces && Tendril != "~" && !IsSpace(Tendril[0])
            && TrimRight(RunWorkspaces) == RunWorkspaces
  {
  }

  // ---------------------------------------------------------------------------------------------
  // The components that the check sees
  // ---------------------------------------------------------------------------------------------

  /** A slash at the start or the end, but none after another. */
  predicate Single(parts: seq<string>) {
    && (forall k | 0 <= k < |parts| :: Without(parts[k], '/'))
    && (forall k | 0 < k < |parts| - 1 :: parts[k] != "")
  }

  lemma SqueezedStep(c: char, s: string)
    requires s == "" || !(c == '/' && s[0] == '/')
    ensures Squeezed([c] + s) == [c] + Squeezed(s)
  {
    assert ([c] + s)[1..] == s;
  }

  /** Squeezing leaves a component in front of a slash as it is. */
  lemma {:induction false} SqueezedOnward(c: string, rest: string)
    requires Without(c, '/') && (rest == "" || rest[0] != '/')
    ensures Squeezed(c + "/" + rest) == c + "/" + Squeezed(rest)
  {
    if c == "" {
      SqueezedStep('/', rest);
      assert c + "/" + rest == ['/'] + rest;
    } else {
      SqueezedOnward(c[1..], rest);
      SqueezedStep(c[0], c[1..] + "/" + rest);
      assert c + "/" + rest == [c[0]] + (c[1..] + "/" + rest);
      assert c + "/" + Squeezed(rest) == [c[0]] + (c[1..] + "/" + Squeezed(rest));
    }
  }

  lemma {:induction false} SqueezedParts(parts: seq<string>)
    requires parts != [] && Single(parts)
    ensures var s := Join(parts, "/");
            Squeezed(s) == s && (|parts| > 1 && parts[0] != "" ==> s != "" && s[0] == parts[0][0])
  {
    if |parts| == 1 {
      SqueezedIsFinal(parts[0]);
    } else {
      var rest := parts[1..];
      assert Single(rest);
      SqueezedParts(rest);
      assert |rest| > 1 ==> parts[1] != "";
      SqueezedOnward(parts[0], Join(rest, "/"));
    }
  }

  /** Trimming a path changes its last component only. */
  function WithoutTail(parts: seq<string>): seq<string>
    requires parts != []
  {
    parts[..|parts| - 1] + [TrimRight(parts[|parts| - 1])]
  }

  lemma {:induction false} TrimRightOfLast(before: string, last: string)
    ensures TrimRight(before + "/" + last) == before + "/" + TrimRight(last)
  {
    var whole := before + "/" + last;
    if last == "" {
      assert whole[|whole| - 1] == '/';
    } else {
      assert whole[|whole| - 1] == last[|last| - 1];
      if IsSpace(last[|last| - 1]) {
        assert whole[..|whole| - 1] == before + "/" + last[..|last| - 1];
        TrimRightOfLast(before, last[..|last| - 1]);
      }
    }
  }

  lemma JoinOfTwo(parts: seq<string>)
    requires |parts| > 1
    ensures var n := |parts| - 1;
            && Join(parts, "/") == Join(parts[..n], "/") + "/" + parts[n]
            && Join(parts, "/") == parts[0] + "/" + Join(parts[1..], "/")
  {
    var n := |parts| - 1;
    JoinConcat(parts[..n], [parts[n]], "/");
    Snoc(parts);
  }

  lemma TrimmedPath(parts: seq<string>)
    requires |parts| > 1 && (parts[0] == "" || !IsSpace(parts[0][0]))
    ensures TrimSpace(Join(parts, "/")) == Join(WithoutTail(parts), "/")
  {
    var n, s := |parts| - 1, Join(parts, "/");
    JoinOfTwo(parts);
    assert s[0] == if parts[0] == "" then '/' else parts[0][0];
    assert TrimLeft(s) == s;
    TrimRightOfLast(Join(parts[..n], "/"), parts[n]);
    JoinConcat(parts[..n], [TrimRight(parts[n])], "/");
  }

  /** What the check sees of a path without empty components inside: those components, but for white space at
      the end of the last. */
  lemma CheckedParts(parts: seq<string>)
    requires |parts| > 1 && Single(parts) && (parts[0] == "" || !IsSpace(parts[0][0]))
    ensures Split(Squeezed(TrimSpace(Join(parts, "/"))), '/') == WithoutTail(parts)
  {
    TrimmedPath(parts);
    TrimRightIsPrefix(parts[|parts| - 1]);
    assert Single(WithoutTail(parts));
    SqueezedParts(WithoutTail(parts));
    SplitJoin(WithoutTail(parts), '/');
  }

  /** The pair comes somewhere in the path, with something after it. */
  ghost predicate PairInside(parts: seq<string>) {
    exists i: nat :: FollowedAt(parts, i, Tendril, RunWorkspaces)
  }

  lemma PairInsideWithoutTail(parts: seq<string>)
    requires parts != []
    ensures PairInside(WithoutTail(parts)) <==> PairInside(parts)
  {
    forall i: nat ensures FollowedAt(WithoutTail(parts), i, Tendril, RunWorkspaces)
                          <==> FollowedAt(parts, i, Tendril, RunWorkspaces) {
    }
  }

  lemma RefusedByComponents(path: string, parts: seq<string>)
    requires |parts| > 1 && Single(parts) && (parts[0] == "" || !IsSpace(parts[0][0])) && path == Join(parts, "/")
    ensures NamesExecutionLocation(Squeezed(TrimSpace(path)))
            <==> WithoutTail(parts)[0] == "~" || WithoutTail(parts) == Location || PairInside(parts)
  {
    CheckedParts(parts);
    RefusedExactlyWhenNamed(Squeezed(TrimSpace(path)));
    PairInsideWithoutTail(parts);
  }

  // ---------------------------------------------------------------------------------------------
  // Resolution
  // ---------------------------------------------------------------------------------------------

  /** The path is resolved, to the location below the root or to something below it. */
  predicate ReachesLocation(r: Resolved, root: seq<string>) {
    r.Within? && root + Location <= Cleaned(r.abs)
  }

  /** Nothing in it for cleaning to remove. */
  predicate SpelledClean(path: string) {
    if IsAbs(path) then path == Clean(path) else forall k | 0 <= k < |Split(path, '/')| :: Name(Split(path, '/')[k])
  }

  lemma {:induction false} StartStays(s: string)
    requires s != "" && !IsSpace(s[0])
    ensures TrimRight(s) != ""
  {
    if IsSpace(s[|s| - 1]) {
      StartStays(s[..|s| - 1]);
    }
  }

  lemma GivenAsItIs(path: string)
    requires path != "" && !IsSpace(path[0])
    ensures Given(path) == path
  {
    StartStays(path);
  }

  /** What is resolved, by the target and the check. */
  lemma ReachesExactlyWhenPassed(cwd: string, workspaceRoot: string, rawPath: string)
    ensures var root := Cleaned(Abs(cwd, workspaceRoot));
            var target := Target(root, Given(rawPath));
            var r := ResolveWorkspacePath(cwd, workspaceRoot, rawPath);
            && Names(root) && Names(target)
            && (ReachesLocation(r, root)
                <==> root + Location <= target && !NamesExecutionLocation(Squeezed(TrimSpace(Given(rawPath)))))
            && (root <= target && !NamesExecutionLocation(Squeezed(TrimSpace(Given(rawPath))))
                <==> r.Within? && r.abs == Rooted(target))
  {
    var root := Cleaned(Abs(cwd, workspaceRoot));
    var target := Target(root, Given(rawPath));
    ResolvesExactlyWithinTheRoot(cwd, workspaceRoot, rawPath);
    RootIsClean(cwd, workspaceRoot);
    TargetIsNames(root, Given(rawPath));
    CleanedRooted(target);
    if root + Location <= target {
      assert root <= target;
    }
  }

  lemma BlankIsRoot(root: seq<string>, rawPath: string)
    requires TrimSpace(rawPath) == ""
    ensures Target(root, Given(rawPath)) == root
  {
    SplitWithout(".", '/');
    assert ["."][1..] == [];
  }

  /** A clean relative path that leads to the location is refused. */
  lemma CleanRelativeIsRefused(root: seq<string>, path: string)
    requires SpelledClean(path) && !IsAbs(path) && root + Location <= Target(root, path)
    ensures NamesExecutionLocation(Squeezed(TrimSpace(path)))
  {
    var parts := Split(path, '/');
    JoinSplit(path, '/');
    WalkNames(root, parts);
    LocationIsNames();
    assert Location <= parts by {
      Below(root, Location, parts);
    }
    assert parts[0] == Tendril && parts[1] == RunWorkspaces;
    RefusedByComponents(path, parts);
    if |parts| == 2 {
      assert WithoutTail(parts) == Location;
    } else {
      assert FollowedAt(parts, 0, Tendril, RunWorkspaces);
    }
  }

  lemma Below(root: seq<string>, below: seq<string>, parts: seq<string>)
    requires root + below <= root + parts
    ensures below <= parts
  {
    assert (root + parts)[|root|..] == parts;
    assert (root + parts)[|root|..|root + below|] == below;
  }

  /** A clean absolute path that leads to the location passes exactly when it is the location itself and no such
      pair of components comes earlier. */
  lemma CleanAbsolutePasses(root: seq<string>, cs: seq<string>)
    requires Names(cs) && root + Location <= cs
    ensures !NamesExecutionLocation(Squeezed(TrimSpace(Rooted(cs)))) <==> cs == root + Location && !PairInside(cs)
  {
    var parts := [""] + cs;
    JoinConcat([""], cs, "/");
    LocationIsNames();
    RefusedByComponents(Rooted(cs), parts);
    PairBehindSlash(cs);
    if cs != root + Location {
      assert FollowedAt(cs, |root|, Tendril, RunWorkspaces);
    }
  }

  lemma PairBehindSlash(cs: seq<string>)
    ensures PairInside([""] + cs) <==> PairInside(cs)
  {
    var parts := [""] + cs;
    if i: nat :| FollowedAt(parts, i, Tendril, RunWorkspaces) {
      assert FollowedAt(cs, i - 1, Tendril, RunWorkspaces);
    }
    if i: nat :| FollowedAt(cs, i, Tendril, RunWorkspaces) {
      assert FollowedAt(parts, i + 1, Tendril, RunWorkspaces);
    }
  }

  /** Of the paths that are spelled clean, just one reaches the location: its own absolute path, unless the
      workspace root itself has such a pair of components inside. Relative ones and ones below it are refused. */
  lemma CleanSpellingReachesExactlyWhen(cwd: string, workspaceRoot: string, rawPath: string)
    requires SpelledClean(rawPath)
    ensures var root := Cleaned(Abs(cwd, workspaceRoot));
            ReachesLocation(ResolveWorkspacePath(cwd, workspaceRoot, rawPath), root)
            <==> rawPath == Rooted(root + Location) && !PairInside(root + Location)
  {
    var root := Cleaned(Abs(cwd, workspaceRoot));
    var target := Target(root, Given(rawPath));
    ReachesExactlyWhenPassed(cwd, workspaceRoot, rawPath);
    LocationIsNames();
    CleanedRooted(root + Location);
    if IsAbs(rawPath) {
      GivenAsItIs(rawPath);
      if root + Location <= target {
        CleanAbsolutePasses(root, target);
      }
    } else if TrimSpace(rawPath) == "" {
      BlankIsRoot(root, rawPath);
    } else if root + Location <= target {
      CleanRelativeIsRefused(root, rawPath);
    }
  }

  lemma NameIsRefused(cwd: string, workspaceRoot: string)
    ensures ResolveWorkspacePath(cwd, workspaceRoot, Join(Location, "/")) == NotRepositoryRelative
  {
    LocationIsNames();
    SqueezedParts(Location);
    GivenAsItIs(Join(Location, "/"));
    RefusedByComponents(Join(Location, "/"), Location);
    assert WithoutTail(Location) == Location;
  }

  /** What an absolute path that passes returns. */
  lemma AbsoluteResolves(cwd: string, workspaceRoot: string, below: seq<string>)
    requires Names(below) && below != []
    requires var path := Rooted(Cleaned(Abs(cwd, workspaceRoot)) + below);
             !NamesExecutionLocation(Squeezed(TrimSpace(path)))
    ensures var path := Rooted(Cleaned(Abs(cwd, workspaceRoot)) + below);
            ResolveWorkspacePath(cwd, workspaceRoot, path) == Within(path, Join(below, "/"))
  {
    var root := Cleaned(Abs(cwd, workspaceRoot));
    RootIsClean(cwd, workspaceRoot);
    CleanedRooted(root + below);
    GivenAsItIs(Rooted(root + below));
    ResolvesExactlyWithinTheRoot(cwd, workspaceRoot, Rooted(root + below));
    assert (root + below)[|root|..] == below;
  }

  /** The absolute spelling returns the relative path that is refused when it is given itself. */
  lemma AbsoluteSpellingPasses(cwd: string, workspaceRoot: string)
    requires !PairInside(Cleaned(Abs(cwd, workspaceRoot)) + Location)
    ensures var path := Rooted(Cleaned(Abs(cwd, workspaceRoot)) + Location);
            ResolveWorkspacePath(cwd, workspaceRoot, path) == Within(path, Join(Location, "/"))
    ensures ResolveWorkspacePath(cwd, workspaceRoot, Join(Location, "/")) == NotRepositoryRelative
  {
    LocationIsNames();
    RootIsClean(cwd, workspaceRoot);
    CleanAbsolutePasses(Cleaned(Abs(cwd, workspaceRoot)), Cleaned(Abs(cwd, workspaceRoot)) + Location);
    AbsoluteResolves(cwd, workspaceRoot, Location);
    NameIsRefused(cwd, workspaceRoot);
  }

  // ---------------------------------------------------------------------------------------------
  // Other spellings
  // ---------------------------------------------------------------------------------------------

  /** The same components with a "." after each but the last. */
  function Dotted(names: seq<string>): seq<string> {
    if |names| <= 1 then names else [names[0], "."] + Dotted(names[1..])
  }

  lemma {:induction false} WalkDotted(path: seq<string>, names: seq<string>)
    requires Names(names)
    ensures Walk(path, Dotted(names)) == path + names
    decreases |names|
  {
    if |names| <= 1 {
      WalkNames(path, names);
    } else {
      var rest := Dotted(names[1..]);
      WalkDotted(path + [names[0]], names[1..]);
      WalkConcat(path, [names[0], "."], rest);
      WalkConcat(path, [names[0]], ["."]);
      assert [names[0]] + ["."] == [names[0], "."];
      assert path + [names[0]] + names[1..] == path + names;
    }
  }

  lemma {:induction false} DottedAt(names: seq<string>)
    requires Names(names) && names != []
    ensures var parts := Dotted(names);
            && |parts| == 2 * |names| - 1 && parts[0] == names[0]
            && (forall k | 0 <= k < |parts| :: parts[k] == "." || Name(parts[k]))
            && forall k, next | 0 <= k < next == k + 1 < |parts| :: parts[k] == "." || parts[next] == "."
  {
    if |names| > 1 {
      DottedAt(names[1..]);
    }
  }

  lemma DottedPasses(below: seq<string>)
    requires Names(below) && Location <= below
    ensures var path := Join(Dotted(below), "/");
            && Split(path, '/') == Dotted(below) && Given(path) == path && !IsAbs(path)
            && !NamesExecutionLocation(Squeezed(TrimSpace(path)))
  {
    var parts := Dotted(below);
    DottedAt(below);
    LocationIsNames();
    assert below[0] == Tendril;
    SplitJoin(parts, '/');
    SqueezedParts(parts);
    GivenAsItIs(Join(parts, "/"));
    RefusedByComponents(Join(parts, "/"), parts);
    NoPairInside(parts);
  }

  lemma NoPairInside(parts: seq<string>)
    requires forall k, next | 0 <= k < next == k + 1 < |parts| :: parts[k] == "." || parts[next] == "."
    ensures !PairInside(parts)
  {
    LocationIsNames();
    forall i: nat ensures !FollowedAt(parts, i, Tendril, RunWorkspaces) {
      var next := i + 1;
      assert next < |parts| ==> parts[i] == "." || parts[next] == ".";
    }
  }

  /** Every path at or below the location is what some spelling resolves to: with a "." after each component,
      the check does not see the pair. */
  lemma DottedSpellingReaches(cwd: string, workspaceRoot: string, below: seq<string>)
    requires Names(below) && Location <= below
    ensures var root := Cleaned(Abs(cwd, workspaceRoot));
            ResolveWorkspacePath(cwd, workspaceRoot, Join(Dotted(below), "/"))
            == Within(Rooted(root + below), Join(below, "/"))
  {
    var root, parts := Cleaned(Abs(cwd, workspaceRoot)), Dotted(below);
    var path := Join(parts, "/");
    DottedPasses(below);
    RootIsClean(cwd, workspaceRoot);
    WalkDotted(root, below);
    ResolvesExactlyWithinTheRoot(cwd, workspaceRoot, path);
    assert (root + below)[|root|..] == below;
  }
}
