/** The bounded listing of a directory tree (sprouts/go/main.go). */
module TreeWalk {
  import opened Options
  import opened Sequences
  import opened Text
  import WorkspacePath

  /** A directory entry. Its information may be unavailable, and a directory may be unreadable; the children of
      a directory are in the order in which the walk sorts them. */
  datatype Node =
    | Leaf(name: string, infoFails: bool, symlink: bool, size: nat)
    | Dir(name: string, infoFails: bool, readable: bool, size: nat, children: seq<Node>)

  datatype Kind = FileKind | DirKind | SymlinkKind

  datatype Entry = Entry(path: string, kind: Kind, size: nat)

  const SkipDirs: set<string> := {".git", "node_modules", "vendor", ".venv", "venv", "dist", "build", "__pycache__"}

  /** entryForPath. */
  function EntryFor(path: string, n: Node): Entry {
    Entry(path, if n.Dir? then DirKind else if n.symlink then SymlinkKind else FileKind, n.size)
  }

  /** The path of a child; a relative root of "." adds nothing. */
  function Child(rel: string, name: string): string {
    if rel == "." then name else rel + "/" + name
  }

  predicate Listed(n: Node) {
    n.name !in SkipDirs && !n.infoFails
  }

  predicate Entered(n: Node, levels: int) {
    Listed(n) && n.Dir? && n.readable && levels > 1
  }

  /** The unbounded walk: every listed child, each directory followed by its own listing, down to so many levels. */
  function Listing(children: seq<Node>, rel: string, levels: int): seq<Entry>
    decreases children
  {
    if children == [] then [] else ListingOf(children[0], rel, levels) + Listing(children[1..], rel, levels)
  }

  function ListingOf(n: Node, rel: string, levels: int): seq<Entry>
    decreases n
  {
    if !Listed(n) then []
    else if !Entered(n, levels) then [EntryFor(Child(rel, n.name), n)]
    else [EntryFor(Child(rel, n.name), n)] + Listing(n.children, Child(rel, n.name), levels - 1)
  }

  function DirListing(dir: Node, rel: string, levels: int): seq<Entry>
    requires dir.Dir?
  {
    if dir.readable then Listing(dir.children, rel, levels) else []
  }

  /** The list that the walk appends to. */
  class EntryList {
    var items: seq<Entry>

    constructor ()
      ensures items == []
    {
      items := [];
    }

    method Append(e: Entry)
      modifies this
      ensures items == old(items) + [e]
    {
      items := items + [e];
    }
  }

  /** The list after a bounded walk over what an unbounded one would list. */
  predicate Bounded(was: seq<Entry>, now: seq<Entry>, all: seq<Entry>, max: int, full: bool) {
    if |was| + |all| < max then now == was + all && !full
    else |was| < max && now == was + all[..max - |was|] && full
  }

  lemma BoundedAppend(
      was: seq<Entry>, now: seq<Entry>, later: seq<Entry>, first: seq<Entry>, rest: seq<Entry>, max: int, full: bool)
    requires now == was + first && |now| < max && Bounded(now, later, rest, max, full)
    ensures Bounded(was, later, first + rest, max, full)
  {
    if |now| + |rest| < max {
      assert now + rest == was + (first + rest);
    } else {
      assert now + rest[..max - |now|] == was + (first + rest)[..max - |was|];
    }
  }

  /** The list became full within the listing of one child. */
  lemma BoundedFull(
    was: seq<Entry>, now: seq<Entry>, later: seq<Entry>, done: seq<Entry>, first: seq<Entry>, rest: seq<Entry>,
    max: int)
    requires now == was + done && |now| < max && Bounded(now, later, first, max, true)
    ensures Bounded(was, later, done + (first + rest), max, true)
  {
    assert first[..max - |now|] == (first + rest)[..max - |now|];
    BoundedAppend(was, now, later, done, first + rest, max, true);
  }

  lemma ListingStep(children: seq<Node>, k: nat, rel: string, levels: int)
    requires k < |children|
    ensures Listing(children[k..], rel, levels)
            == ListingOf(children[k], rel, levels) + Listing(children[k + 1..], rel, levels)
  {
    assert children[k..][0] == children[k] && children[k..][1..] == children[k + 1..];
  }

  /** walkDirectory. A list that has room gets the first entries of the unbounded listing, as many as fit, and
      the result says that it is now full; a list that is already full stays as it is. */
  method WalkDirectory(dir: Node, rel: string, depth: nat, maxDepth: int, maxEntries: int, entries: EntryList)
    returns (full: bool)
    requires dir.Dir?
    modifies entries
    ensures |old(entries.items)| < maxEntries ==>
              Bounded(old(entries.items), entries.items, DirListing(dir, rel, maxDepth - depth), maxEntries, full)
    ensures |old(entries.items)| >= maxEntries ==>
              entries.items == old(entries.items) && full == (dir.readable && dir.children != [])
    decreases dir, 0
  {
    if !dir.readable {
      return false;
    }
    ghost var was, levels := entries.items, maxDepth - depth;
    ghost var done: seq<Entry> := [];
    for k := 0 to |dir.children|
      invariant entries.items == was + done
      invariant |was| < maxEntries ==> |entries.items| < maxEntries
      invariant |was| >= maxEntries ==> k == 0 && done == []
      invariant done + Listing(dir.children[k..], rel, levels) == Listing(dir.children, rel, levels)
    {
      if |entries.items| >= maxEntries {
        return true;
      }
      ghost var now := entries.items;
      ghost var first, rest := ListingOf(dir.children[k], rel, levels), Listing(dir.children[k + 1..], rel, levels);
      ListingStep(dir.children, k, rel, levels);
      Regroup(done, first, rest);
      full := WalkEntry(dir.children[k], rel, depth, maxDepth, maxEntries, entries);
      if full {
        BoundedFull(was, now, entries.items, done, first, rest, maxEntries);
        return true;
      }
      Regroup(was, done, first);
      done := done + first;
    }
    full := false;
  }

  /** One turn of the loop over the children, on a list that has room. */
  method WalkEntry(entry: Node, rel: string, depth: nat, maxDepth: int, maxEntries: int, entries: EntryList)
    returns (full: bool)
    requires |entries.items| < maxEntries
    modifies entries
    ensures Bounded(old(entries.items), entries.items, ListingOf(entry, rel, maxDepth - depth), maxEntries, full)
    decreases entry, 1
  {
    if entry.name in SkipDirs || entry.infoFails {
      return false;
    }
    var path := Child(rel, entry.name);
    ghost var was := entries.items;
    entries.Append(EntryFor(path, entry));
    if |entries.items| >= maxEntries {
      return true;
    }
    full := false;
    if entry.Dir? && depth + 1 < maxDepth {
      ghost var now := entries.items;
      full := WalkDirectory(entry, path, depth + 1, maxDepth, maxEntries, entries);
      BoundedAppend(was, now, entries.items, [EntryFor(path, entry)], DirListing(entry, path, maxDepth - depth - 1),
        maxEntries, full);
    }
  }

  datatype Output = Output(root: string, entries: seq<Entry>, truncated: bool)

  function Default(given: int, otherwise: int): int {
    if given <= 0 then otherwise else given
  }

  /** listFilesTool from the resolved path on; target is what stat finds there. The entries are the first ones of
      the unbounded listing, and truncated says that the listing has at least as many as may be returned. */
  method ListFiles(rel: string, target: Option<Node>, maxDepth: int, maxEntries: int) returns (output: Option<Output>)
    ensures output.None? <==> target.None?
    ensures target.Some? && target.value.Leaf? ==> output == Some(Output(rel, [EntryFor(rel, target.value)], false))
    ensures target.Some? && target.value.Dir? ==>
              var all := DirListing(target.value, rel, if maxDepth <= 0 then 3 else maxDepth);
              var max := if maxEntries <= 0 then 500 else maxEntries;
              && output.value.root == rel
              && output.value.entries == (if |all| <= max then all else all[..max])
              && (output.value.truncated <==> |all| >= max)
  {
    if target.None? {
      return None;
    }
    var entries := new EntryList();
    var truncated := false;
    if target.value.Dir? {
      truncated := WalkDirectory(target.value, rel, 0, Default(maxDepth, 3), Default(maxEntries, 500), entries);
    } else {
      entries.Append(EntryFor(rel, target.value));
      assert entries.items == [EntryFor(rel, target.value)];
    }
    output := Some(Output(rel, entries.items, truncated));
  }

  // ---------------------------------------------------------------------------------------------
  // What the unbounded listing holds
  // ---------------------------------------------------------------------------------------------

  /** The entry describes the node. */
  predicate Describes(e: Entry, path: string, n: Node) {
    && e.path == path && e.size == n.size && (e.kind.DirKind? <==> n.Dir?)
    && (e.kind.SymlinkKind? <==> n.Leaf? && n.symlink)
  }

  /** The chain of child positions goes, through readable directories, past no skipped name and no entry without
      information, to the thing described by e. */
  predicate Goes(children: seq<Node>, rel: string, chain: seq<nat>, e: Entry)
    decreases |chain|
  {
    && chain != [] && chain[0] < |children|
    && var n := children[chain[0]];
       var path := Child(rel, n.name);
       && n.name !in SkipDirs && !n.infoFails
       && if |chain| == 1 then Describes(e, path, n)
          else n.Dir? && n.readable && Goes(n.children, path, chain[1..], e)
  }

  /** It goes there within the depth limit, which is that of the children's parent, and of which one level is walked at
      least. */
  predicate Leads(children: seq<Node>, rel: string, levels: int, chain: seq<nat>, e: Entry) {
    Goes(children, rel, chain, e) && (|chain| == 1 || |chain| <= levels)
  }

  /** The k-th chain leads to the k-th entry. */
  predicate LedBy(children: seq<Node>, rel: string, levels: int, chains: seq<seq<nat>>, entries: seq<Entry>) {
    |chains| == |entries| && forall k | 0 <= k < |chains| :: Leads(children, rel, levels, chains[k], entries[k])
  }

  /** A directory comes before what is in it, and that before the directory's later siblings. */
  predicate Precedes(a: seq<nat>, b: seq<nat>)
    decreases |a|
  {
    b != [] && (a == [] || a[0] < b[0] || (a[0] == b[0] && Precedes(a[1..], b[1..])))
  }

  predicate Ascending(chains: seq<seq<nat>>) {
    forall j, k | 0 <= j < k < |chains| :: Precedes(chains[j], chains[k])
  }

  /** Chains into the first child. */
  function Into(chains: seq<seq<nat>>): seq<seq<nat>> {
    seq(|chains|, k requires 0 <= k < |chains| => [0] + chains[k])
  }

  /** Chains from the second child on. */
  function Onward(chains: seq<seq<nat>>): seq<seq<nat>> {
    seq(|chains|, k requires 0 <= k < |chains| => if chains[k] == [] then [] else [chains[k][0] + 1] + chains[k][1..])
  }

  lemma IntoFirst(children: seq<Node>, rel: string, levels: int, chains: seq<seq<nat>>, entries: seq<Entry>)
    requires children != [] && Entered(children[0], levels) && Ascending(chains)
    requires LedBy(children[0].children, Child(rel, children[0].name), levels - 1, chains, entries)
    ensures LedBy(children, rel, levels, Into(chains), entries) && Ascending(Into(chains))
  {
    forall k | 0 <= k < |chains| ensures Leads(children, rel, levels, Into(chains)[k], entries[k]) {
      assert Into(chains)[k][1..] == chains[k];
    }
    forall j, k | 0 <= j < k < |chains| ensures Precedes(Into(chains)[j], Into(chains)[k]) {
      assert Into(chains)[j][1..] == chains[j] && Into(chains)[k][1..] == chains[k];
    }
  }

  lemma OnwardLeads(children: seq<Node>, rel: string, levels: int, chains: seq<seq<nat>>, entries: seq<Entry>)
    requires children != [] && LedBy(children[1..], rel, levels, chains, entries) && Ascending(chains)
    ensures LedBy(children, rel, levels, Onward(chains), entries) && Ascending(Onward(chains))
    ensures forall k | 0 <= k < |chains| :: Onward(chains)[k] != [] && Onward(chains)[k][0] > 0
  {
    forall k | 0 <= k < |chains| ensures Leads(children, rel, levels, Onward(chains)[k], entries[k]) {
      assert Leads(children[1..], rel, levels, chains[k], entries[k]);
      assert Onward(chains)[k][1..] == chains[k][1..] && children[1..][chains[k][0]] == children[chains[k][0] + 1];
    }
    forall j, k | 0 <= j < k < |chains| ensures Precedes(Onward(chains)[j], Onward(chains)[k]) {
      assert Leads(children[1..], rel, levels, chains[j], entries[j]);
      assert Leads(children[1..], rel, levels, chains[k], entries[k]);
      assert Onward(chains)[j][1..] == chains[j][1..] && Onward(chains)[k][1..] == chains[k][1..];
    }
  }

  lemma LedByBoth(
    children: seq<Node>, rel: string, levels: int, a: seq<seq<nat>>, b: seq<seq<nat>>, first: seq<Entry>,
    rest: seq<Entry>)
    requires LedBy(children, rel, levels, a, first) && LedBy(children, rel, levels, b, rest)
    requires Ascending(a) && Ascending(b) && forall j, k | 0 <= j < |a| && 0 <= k < |b| :: Precedes(a[j], b[k])
    ensures LedBy(children, rel, levels, a + b, first + rest) && Ascending(a + b)
  {
  }

  /** Every chain that leads anywhere from here is among these. */
  ghost predicate Complete(children: seq<Node>, rel: string, levels: int, chains: seq<seq<nat>>) {
    forall chain, e | Leads(children, rel, levels, chain, e) :: chain in chains
  }

  lemma DirectoryIsFirst(children: seq<Node>, rel: string, levels: int, inner: seq<seq<nat>>, entries: seq<Entry>)
    requires LedBy(children, rel, levels, inner, entries)
    ensures forall k | 0 <= k < |inner| :: Precedes([0], Into(inner)[k])
  {
    forall k | 0 <= k < |inner| ensures Precedes([0], Into(inner)[k]) {
      assert Leads(children, rel, levels, inner[k], entries[k]);
      assert Into(inner)[k][1..] == inner[k] && [0][1..] == [];
    }
  }

  /** Into a directory the chains have one level less to go. */
  lemma LeadsInto(children: seq<Node>, rel: string, levels: int, chain: seq<nat>, e: Entry)
    requires Leads(children, rel, levels, chain, e) && |chain| > 1
    ensures var n := children[chain[0]];
            Entered(n, levels) && Leads(n.children, Child(rel, n.name), levels - 1, chain[1..], e)
  {
  }

  lemma {:induction false} FirstInOrder(children: seq<Node>, rel: string, levels: int) returns (chains: seq<seq<nat>>)
    requires children != []
    ensures LedBy(children, rel, levels, chains, ListingOf(children[0], rel, levels)) && Ascending(chains)
    ensures forall k | 0 <= k < |chains| :: chains[k] != [] && chains[k][0] == 0
    ensures forall chain, e | Leads(children, rel, levels, chain, e) && chain[0] == 0 :: chain in chains
    decreases children, 0
  {
    var n := children[0];
    var path := Child(rel, n.name);
    if !Listed(n) {
      chains := [];
    } else if !Entered(n, levels) {
      chains := [[0]];
      forall chain, e | Leads(children, rel, levels, chain, e) && chain[0] == 0 ensures chain in chains {
        if |chain| > 1 {
          LeadsInto(children, rel, levels, chain, e);
        }
        assert chain == [0];
      }
    } else {
      var inner := ListingInOrder(n.children, path, levels - 1);
      IntoFirst(children, rel, levels, inner, Listing(n.children, path, levels - 1));
      DirectoryIsFirst(n.children, path, levels - 1, inner, Listing(n.children, path, levels - 1));
      chains := [[0]] + Into(inner);
      LedByBoth(children, rel, levels, [[0]], Into(inner), [EntryFor(path, n)], Listing(n.children, path, levels - 1));
      forall chain, e | Leads(children, rel, levels, chain, e) && chain[0] == 0 ensures chain in chains {
        if |chain| > 1 {
          LeadsInto(children, rel, levels, chain, e);
        }
        FirstIsComplete(chain, inner);
      }
    }
  }

  lemma FirstIsComplete(chain: seq<nat>, inner: seq<seq<nat>>)
    requires chain != [] && chain[0] == 0 && (|chain| > 1 ==> chain[1..] in inner)
    ensures chain in [[0]] + Into(inner)
  {
    if |chain| > 1 {
      var k :| 0 <= k < |inner| && inner[k] == chain[1..];
      assert Into(inner)[k] == chain;
    } else {
      assert chain == [0];
    }
  }

  /** The k-th entry of the unbounded listing is led to by the k-th of all chains that lead anywhere, in their order. */
  lemma {:induction false} ListingInOrder(children: seq<Node>, rel: string, levels: int) returns (chains: seq<seq<nat>>)
    ensures LedBy(children, rel, levels, chains, Listing(children, rel, levels))
    ensures Ascending(chains) && Complete(children, rel, levels, chains)
    decreases children, 1
  {
    if children == [] {
      chains := [];
    } else {
      var own := FirstInOrder(children, rel, levels);
      var later := ListingInOrder(children[1..], rel, levels);
      var onward := Onward(later);
      OnwardLeads(children, rel, levels, later, Listing(children[1..], rel, levels));
      chains := own + onward;
      LedByBoth(children, rel, levels, own, onward, ListingOf(children[0], rel, levels),
        Listing(children[1..], rel, levels));
      forall chain, e | Leads(children, rel, levels, chain, e) ensures chain in chains {
        if chain[0] > 0 {
          OnwardIsComplete(children, rel, levels, chain, e, later);
        }
      }
    }
  }

  lemma OnwardIsComplete(children: seq<Node>, rel: string, levels: int, chain: seq<nat>, e: Entry, later: seq<seq<nat>>)
    requires children != [] && Leads(children, rel, levels, chain, e) && chain[0] > 0
    requires Complete(children[1..], rel, levels, later)
    ensures chain in Onward(later)
  {
    var back := Back(chain);
    assert children[1..][back[0]] == children[chain[0]];
    assert Leads(children[1..], rel, levels, back, e);
    OnwardHas(later, back);
  }

  function Back(chain: seq<nat>): (back: seq<nat>)
    requires chain != [] && chain[0] > 0
    ensures back != [] && back[0] == chain[0] - 1 && back[1..] == chain[1..] && [back[0] + 1] + back[1..] == chain
  {
    [chain[0] - 1] + chain[1..]
  }

  lemma OnwardHas(later: seq<seq<nat>>, chain: seq<nat>)
    requires chain != [] && chain in later
    ensures [chain[0] + 1] + chain[1..] in Onward(later)
  {
    var k :| 0 <= k < |later| && later[k] == chain;
    assert Onward(later)[k] == [chain[0] + 1] + chain[1..];
  }

  /** The chain determines what it leads to. */
  lemma {:induction false} LeadsToOne(
      children: seq<Node>, rel: string, levels: int, chain: seq<nat>, e: Entry, f: Entry)
    requires Leads(children, rel, levels, chain, e) && Leads(children, rel, levels, chain, f)
    ensures e == f
    decreases |chain|
  {
    if |chain| > 1 {
      var n := children[chain[0]];
      LeadsToOne(n.children, Child(rel, n.name), levels - 1, chain[1..], e, f);
    }
  }

  /** The unbounded listing holds exactly what can be reached, within the depth limit, without passing a skipped
      name, an entry without information or an unreadable directory. */
  lemma ListedExactlyWhenReached(children: seq<Node>, rel: string, levels: int, e: Entry)
    ensures e in Listing(children, rel, levels)
            <==> exists chain :: Leads(children, rel, levels, chain, e)
  {
    var chains := ListingInOrder(children, rel, levels);
    var all := Listing(children, rel, levels);
    if k :| 0 <= k < |all| && all[k] == e {
      assert Leads(children, rel, levels, chains[k], e);
    }
    forall chain | Leads(children, rel, levels, chain, e) ensures e in all {
      var k :| 0 <= k < |chains| && chains[k] == chain;
      LeadsToOne(children, rel, levels, chain, e, all[k]);
    }
  }

  function Components(rel: string): seq<string> {
    if rel == "." then [] else Split(rel, '/')
  }

  /** The names on the way to what the chain leads to. */
  function NamesAlong(children: seq<Node>, chain: seq<nat>): seq<string>
    decreases |chain|
  {
    if chain == [] || chain[0] >= |children| then []
    else
      var n := children[chain[0]];
      [n.name] + (if n.Dir? then NamesAlong(n.children, chain[1..]) else [])
  }

  lemma ChildComponents(rel: string, name: string)
    requires WorkspacePath.Name(name)
    ensures Components(Child(rel, name)) == Components(rel) + [name] == Split(Child(rel, name), '/')
  {
    SplitWithout(name, '/');
    SplitConcat(rel, name, '/');
    if rel != "." {
      assert Child(rel, name)[|rel|] == '/';
    }
  }

  lemma NamesStep(children: seq<Node>, chain: seq<nat>)
    requires chain != [] && chain[0] < |children| && (|chain| > 1 ==> children[chain[0]].Dir?)
    ensures NamesAlong(children, chain)
            == [children[chain[0]].name]
              + (if |chain| == 1 then [] else NamesAlong(children[chain[0]].children, chain[1..]))
  {
    if |chain| == 1 {
      assert chain[1..] == [];
    }
  }

  lemma NamesSplit(name: string, rest: seq<string>, head: seq<string>)
    requires WorkspacePath.Names([name] + rest)
    ensures WorkspacePath.Name(name) && WorkspacePath.Names(rest)
    ensures (head + [name]) + rest == head + ([name] + rest)
  {
    assert ([name] + rest)[0] == name;
    assert forall k | 0 <= k < |rest| :: rest[k] == ([name] + rest)[k + 1];
  }

  /** A listed path has the components of the root and then the names along the chain. */
  lemma {:induction false} PathNamesTheChain(children: seq<Node>, rel: string, levels: int, chain: seq<nat>, e: Entry)
    requires Leads(children, rel, levels, chain, e) && WorkspacePath.Names(NamesAlong(children, chain))
    ensures Split(e.path, '/') == Components(rel) + NamesAlong(children, chain)
    decreases |chain|
  {
    var n := children[chain[0]];
    NamesStep(children, chain);
    if |chain| == 1 {
      NamesSplit(n.name, [], Components(rel));
      ChildComponents(rel, n.name);
    } else {
      var rest := NamesAlong(n.children, chain[1..]);
      NamesSplit(n.name, rest, Components(rel));
      ChildComponents(rel, n.name);
      PathNamesTheChain(n.children, Child(rel, n.name), levels - 1, chain[1..], e);
    }
  }
}
