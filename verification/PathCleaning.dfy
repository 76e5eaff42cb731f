/** What ".", ".." and empty components do to the path that is resolved (sprouts/go/main.go). */
module PathCleaning {
  import opened Sequences
  import opened Text
  import opened WorkspacePath

  /** Where neither spelling is refused by name, both give the same. */
  predicate Agree(cwd: string, workspaceRoot: string, rawPath: string, other: string) {
    var r, s := ResolveWorkspacePath(cwd, workspaceRoot, rawPath), ResolveWorkspacePath(cwd, workspaceRoot, other);
    r.NotRepositoryRelative? || s.NotRepositoryRelative? || r == s
  }

  lemma {:induction false} SlashIsNotBlank(s: string, k: nat)
    requires k < |s| && s[k] == '/'
    ensures TrimSpace(s) != ""
  {
    TrimLeftKeeps(s, k);
  }

  lemma {:induction false} TrimLeftKeeps(s: string, k: nat)
    requires k < |s| && s[k] == '/'
    ensures TrimRight(TrimLeft(s)) != ""
    decreases |s|
  {
    if IsSpace(s[0]) {
      TrimLeftKeeps(s[1..], k - 1);
    } else {
      TrimRightKeeps(s, k);
    }
  }

  lemma {:induction false} TrimRightKeeps(s: string, k: nat)
    requires k < |s| && s[k] == '/'
    ensures TrimRight(s) != ""
  {
    if IsSpace(s[|s| - 1]) {
      TrimRightKeeps(s[..|s| - 1], k);
    }
  }

  /** Two spellings that lead to the same place from everywhere. */
  lemma SameWalksAgree(cwd: string, workspaceRoot: string, a: string, rest: string, other: string)
    requires forall path: seq<string> :: Walk(path, Split(rest, '/')) == Walk(path, Split(other, '/'))
    ensures Agree(cwd, workspaceRoot, a + "/" + rest, a + "/" + other)
  {
    var p, q := a + "/" + rest, a + "/" + other;
    var root := Cleaned(Abs(cwd, workspaceRoot));
    assert p[|a|] == '/' && q[|a|] == '/';
    SlashIsNotBlank(p, |a|);
    SlashIsNotBlank(q, |a|);
    assert IsAbs(p) == IsAbs(q) by {
      assert p[0] == (a + "/")[0] && q[0] == (a + "/")[0];
    }
    SplitConcat(a, rest, '/');
    SplitConcat(a, other, '/');
    var start := if IsAbs(p) then [] else root;
    WalkConcat(start, Split(a, '/'), Split(rest, '/'));
    WalkConcat(start, Split(a, '/'), Split(other, '/'));
    assert Target(root, p) == Target(root, q);
    ResolvesExactlyWithinTheRoot(cwd, workspaceRoot, p);
    ResolvesExactlyWithinTheRoot(cwd, workspaceRoot, q);
  }

  /** A name and the ".." after it cancel out. */
  lemma ParentUndoesName(cwd: string, workspaceRoot: string, a: string, c: string, b: string)
    requires Name(c)
    ensures Agree(cwd, workspaceRoot, a + "/" + (c + "/" + (".." + "/" + b)), a + "/" + b)
  {
    SplitAtSeparator("..", b, '/');
    SplitAtSeparator(c, ".." + "/" + b, '/');
    var parts := Split(b, '/');
    forall path: seq<string> ensures Walk(path, [c] + ([".."] + parts)) == Walk(path, parts) {
      assert ([c] + ([".."] + parts))[1..] == [".."] + parts && ([".."] + parts)[1..] == parts;
      assert (path + [c])[..|path|] == path;
    }
    SameWalksAgree(cwd, workspaceRoot, a, c + "/" + (".." + "/" + b), b);
  }

  /** A "." or an empty component changes nothing. */
  lemma DotChangesNothing(cwd: string, workspaceRoot: string, a: string, dot: string, b: string)
    requires dot == "." || dot == ""
    ensures Agree(cwd, workspaceRoot, a + "/" + (dot + "/" + b), a + "/" + b)
  {
    SplitAtSeparator(dot, b, '/');
    var parts := Split(b, '/');
    forall path: seq<string> ensures Walk(path, [dot] + parts) == Walk(path, parts) {
      assert ([dot] + parts)[1..] == parts;
    }
    SameWalksAgree(cwd, workspaceRoot, a, dot + "/" + b, b);
  }

  lemma ParentTarget(root: seq<string>, b: string)
    requires Names(Split(b, '/'))
    ensures var path := ".." + "/" + b;
            Given(path) == path && Target(root, path) == (if root == [] then [] else root[..|root| - 1]) + Split(b, '/')
  {
    var path, parts := ".." + "/" + b, Split(b, '/');
    assert path[2] == '/';
    SlashIsNotBlank(path, 2);
    SplitAtSeparator("..", b, '/');
    assert ([".."] + parts)[1..] == parts;
    WalkNames(Enter(root, ".."), parts);
  }

  lemma BackInto(root: seq<string>, parts: seq<string>)
    requires root != [] && parts != []
    ensures root <= root[..|root| - 1] + parts <==> parts[0] == root[|root| - 1]
  {
    var n := |root| - 1;
    assert (root[..n] + parts)[n] == parts[0];
    Snoc(root);
  }

  /** From a root other than "/" a path that begins with ".." leaves it, unless it comes back by the root's own name. */
  lemma ParentLeavesTheRoot(cwd: string, workspaceRoot: string, b: string)
    requires Names(Split(b, '/')) && Cleaned(Abs(cwd, workspaceRoot)) != []
    ensures var root := Cleaned(Abs(cwd, workspaceRoot));
            var r := ResolveWorkspacePath(cwd, workspaceRoot, ".." + "/" + b);
            r.NotRepositoryRelative? || (r.Escapes? <==> Split(b, '/')[0] != root[|root| - 1])
  {
    var root := Cleaned(Abs(cwd, workspaceRoot));
    ParentTarget(root, b);
    ResolvesExactlyWithinTheRoot(cwd, workspaceRoot, ".." + "/" + b);
    BackInto(root, Split(b, '/'));
  }

  /** From "/" it does as if the ".." were not there. */
  lemma ParentOfRootIsRoot(cwd: string, workspaceRoot: string, b: string)
    requires Names(Split(b, '/')) && Cleaned(Abs(cwd, workspaceRoot)) == []
    ensures var r := ResolveWorkspacePath(cwd, workspaceRoot, ".." + "/" + b);
            r.NotRepositoryRelative? || r == Within(Rooted(Split(b, '/')), b)
  {
    ParentTarget([], b);
    ResolvesExactlyWithinTheRoot(cwd, workspaceRoot, ".." + "/" + b);
    JoinSplit(b, '/');
    assert [] + Split(b, '/') == Split(b, '/') && Split(b, '/')[0..] == Split(b, '/');
  }

  /** At "/" itself ".." stays. */
  lemma ParentOfRootStays(cwd: string, workspaceRoot: string)
    requires Cleaned(Abs(cwd, workspaceRoot)) == []
    ensures ResolveWorkspacePath(cwd, workspaceRoot, "..") == Within("/", ".")
  {
    SplitWithout("..", '/');
    assert [".."][1..] == [];
    FirstComponent("..", "~");
    TrimSpaceFixes("..");
    SqueezedIsFinal("..");
    RefusedExactlyWhenNamed("..");
    ResolvesExactlyWithinTheRoot(cwd, workspaceRoot, "..");
  }

  /** A blank path is the workspace root. */
  lemma BlankIsTheRoot(cwd: string, workspaceRoot: string, rawPath: string)
    requires TrimSpace(rawPath) == ""
    ensures ResolveWorkspacePath(cwd, workspaceRoot, rawPath) == Within(Rooted(Cleaned(Abs(cwd, workspaceRoot))), ".")
  {
    SplitWithout(".", '/');
    assert ["."][1..] == [];
    FirstComponent(".", "~");
    TrimSpaceFixes(".");
    SqueezedIsFinal(".");
    RefusedExactlyWhenNamed(".");
    ResolvesExactlyWithinTheRoot(cwd, workspaceRoot, rawPath);
  }

  /** A relative workspace root is taken from where the process stands, an absolute one is not. */
  lemma RootIsTakenFromHere(here: seq<string>, names: seq<string>)
    requires Names(here) && Names(names) && names != []
    ensures Cleaned(Abs(Rooted(here), Join(names, "/"))) == here + names
    ensures Cleaned(Abs(Rooted(here), Rooted(names))) == names
  {
    JoinStart(names);
    SplitJoin(names, '/');
    CleanedOnward(here, Join(names, "/"));
    WalkNames(here, names);
    assert Names(here + names);
    CleanedRooted(here + names);
    CleanedRooted(names);
  }

  lemma JoinStart(names: seq<string>)
    requires Names(names) && names != []
    ensures !IsAbs(Join(names, "/"))
  {
    assert Name(names[0]);
    assert Join(names, "/")[0] == names[0][0];
  }
}
