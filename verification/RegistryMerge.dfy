/** Merging a connection into the substrate registry, on the YAML node tree itself (cmd/stem/cmdgitsetupmerge.go). */
module RegistryMerge {
  import opened Options
  import opened RegistryEntries

  datatype Kind = ScalarKind | MappingKind | OtherKind

  /** A node of the document. The content of a mapping lists keys and values in turn; a merge never changes the
      kind or the text of a node that exists. */
  class YamlNode {
    const kind: Kind
    const value: string
    var content: seq<YamlNode>
    var headComment: string

    constructor (kind: Kind, value: string)
      ensures this.kind == kind && this.value == value && content == []
    {
      this.kind, this.value := kind, value;
      content, headComment := [], "";
    }
  }

  /** The pairs that a lookup walks over; a last node without a partner is not among them. */
  ghost function Pairs(content: seq<YamlNode>): (pairs: Entries<YamlNode>)
    ensures |pairs| == |content| / 2
  {
    seq(|content| / 2, k requires 0 <= k < |content| / 2 => (content[2 * k].value, content[2 * k + 1]))
  }

  /** mapValue. */
  method MapValue(m: YamlNode, key: string) returns (v: YamlNode?, index: int)
    ensures Has(Pairs(m.content), key) ==>
              v == Lookup(Pairs(m.content), key) && index == 2 * First(Pairs(m.content), key) + 1
    ensures !Has(Pairs(m.content), key) ==> v == null && index == -1
  {
    ghost var pairs := Pairs(m.content);
    var i := 0;
    while i + 1 < |m.content|
      invariant 0 <= i <= |m.content| && i % 2 == 0
      invariant forall j | 0 <= j < i / 2 :: pairs[j].0 != key
    {
      if m.content[i].value == key {
        FirstIs(pairs, key, i / 2);
        return m.content[i + 1], i + 1;
      }
      i := i + 2;
    }
    FirstIs(pairs, key, |pairs|);
    return null, -1;
  }

  lemma PairsAppend(content: seq<YamlNode>, k: YamlNode, v: YamlNode)
    requires |content| % 2 == 0
    ensures Pairs(content + [k, v]) == Pairs(content) + [(k.value, v)]
  {
  }

  lemma PairsReplace(content: seq<YamlNode>, i: nat, v: YamlNode)
    requires 2 * i + 1 < |content|
    ensures Pairs(content[2 * i + 1 := v]) == Pairs(content)[i := (content[2 * i].value, v)]
  {
  }

  /** An appended entry is found as intended exactly when the mapping had no node without a partner. */
  lemma AppendedIsFoundExactlyWhenPaired(content: seq<YamlNode>, k: YamlNode, v: YamlNode)
    requires k != v && !Has(Pairs(content), k.value)
    ensures var pairs := Pairs(content + [k, v]);
            Has(pairs, k.value) && Lookup(pairs, k.value) == v <==> |content| % 2 == 0
  {
    var pairs, n := Pairs(content + [k, v]), |content| / 2;
    assert forall j | 0 <= j < n :: pairs[j] == Pairs(content)[j];
    if |content| % 2 == 0 {
      FirstIs(pairs, k.value, n);
    } else {
      assert pairs[n].1 == k;
    }
  }

  /** setMapEntry: on a mapping whose nodes are paired, a Put; an entry that exists is replaced only by force. */
  method SetMapEntry(m: YamlNode, key: string, value: YamlNode, force: bool) returns (ok: bool)
    requires |m.content| % 2 == 0
    modifies m`content
    ensures |m.content| % 2 == 0
    ensures ok <==> force || !Has(old(Pairs(m.content)), key)
    ensures Pairs(m.content) == if ok then Put(old(Pairs(m.content)), key, value) else old(Pairs(m.content))
  {
    var v, index := MapValue(m, key);
    if v != null {
      if !force {
        return false;
      }
      PairsReplace(m.content, First(Pairs(m.content), key), value);
      m.content := m.content[index := value];
      return true;
    }
    var k := new YamlNode(ScalarKind, key);
    PairsAppend(m.content, k, value);
    m.content := m.content + [k, value];
    ok := true;
  }

  /** The nodes of the root are paired and all different, and so a change to one value leaves the others alone. */
  ghost predicate Treelike(root: YamlNode)
    reads root, root.content
  {
    && |root.content| % 2 == 0
    && root !in root.content
    && (forall i, j | 0 <= i < j < |root.content| :: root.content[i] != root.content[j])
    && (forall n | n in root.content && n.kind.MappingKind? :: |n.content| % 2 == 0)
  }

  ghost function SectionOf(root: YamlNode, key: string): Section<YamlNode>
    reads root, root.content
  {
    var pairs := Pairs(root.content);
    if !Has(pairs, key) then Missing
    else
      var v := Lookup(pairs, key);
      assert v == root.content[2 * First(pairs, key) + 1] && v in root.content;
      if v.kind.MappingKind? then Mapping(Pairs(v.content)) else NotMapping
  }

  ghost function RootPairs(root: YamlNode): Option<Entries<YamlNode>>
    reads root
  {
    if root.kind.MappingKind? then Some(Pairs(root.content)) else None
  }

  /** The values under different keys are different nodes. */
  lemma SectionsAreApart(root: YamlNode, key: string, other: string)
    requires Treelike(root) && key != other
    requires Has(Pairs(root.content), key) && Has(Pairs(root.content), other)
    ensures Lookup(Pairs(root.content), key) != Lookup(Pairs(root.content), other)
    ensures Lookup(Pairs(root.content), key) != root && Lookup(Pairs(root.content), key) in root.content
  {
    var i, j := First(Pairs(root.content), key), First(Pairs(root.content), other);
    assert Pairs(root.content)[i].0 == key && Pairs(root.content)[j].0 == other;
    assert root.content[2 * i + 1] != root.content[2 * j + 1];
  }

  lemma LookupIsBelow(root: YamlNode, key: string)
    requires Treelike(root) && Has(Pairs(root.content), key)
    ensures Lookup(Pairs(root.content), key) != root && Lookup(Pairs(root.content), key) in root.content
  {
    assert Lookup(Pairs(root.content), key) == root.content[2 * First(Pairs(root.content), key) + 1];
  }

  /** Appending a pair leaves the sections under other keys as they are. */
  lemma AppendedElsewhere(pairs: Entries<YamlNode>, key: string, v: YamlNode, other: string)
    ensures other != key ==> (Has(pairs + [(key, v)], other) <==> Has(pairs, other))
    ensures Has(pairs, other) ==>
              Has(pairs + [(key, v)], other) && Lookup(pairs + [(key, v)], other) == Lookup(pairs, other)
    ensures !Has(pairs, key) ==> Has(pairs + [(key, v)], key) && Lookup(pairs + [(key, v)], key) == v
  {
    var more := pairs + [(key, v)];
    FirstIs(more, other, if Has(pairs, other) then First(pairs, other) else if other == key then |pairs| else |more|);
    if !Has(pairs, key) {
      FirstIs(more, key, |pairs|);
    }
  }

  /** getOrCreateMapping: the mapping under the key, made when missing. No other section changes. */
  method GetOrCreateMapping(m: YamlNode, key: string, ghost other: string) returns (v: YamlNode?)
    requires Treelike(m) && other != key
    modifies m`content
    ensures Treelike(m)
    ensures v == null <==> !m.kind.MappingKind? || old(SectionOf(m, key)).NotMapping?
    ensures v == null || !old(SectionOf(m, key)).Missing? ==> m.content == old(m.content)
    ensures old(m.content) <= m.content
    ensures v != null ==> fresh(v) || v in old(m.content)
    ensures forall n | n in m.content :: n in old(m.content) || fresh(n)
    ensures v != null ==>
              && Has(Pairs(m.content), key) && Lookup(Pairs(m.content), key) == v && v.kind.MappingKind?
              && Pairs(v.content) == EntriesOf(old(SectionOf(m, key)))
    ensures v != null && old(SectionOf(m, key)).Missing? ==> Pairs(m.content) == old(Pairs(m.content)) + [(key, v)]
    ensures SectionOf(m, other) == old(SectionOf(m, other))
  {
    if !m.kind.MappingKind? {
      return null;
    }
    var found, _ := MapValue(m, key);
    if found != null {
      if !found.kind.MappingKind? {
        return null;
      }
      return found;
    }
    var made := new YamlNode(MappingKind, "");
    var k := new YamlNode(ScalarKind, key);
    PairsAppend(m.content, k, made);
    AppendedElsewhere(Pairs(m.content), key, made, other);
    m.content := m.content + [k, made];
    v := made;
  }

  /** The node is the value that a lookup of the key finds. */
  ghost predicate IsSection(content: seq<YamlNode>, key: string, n: YamlNode) {
    Has(Pairs(content), key) && n == Lookup(Pairs(content), key)
  }

  /** A node that was there before some were appended is the section of a key only if it was so before. */
  lemma SectionBefore(before: seq<YamlNode>, after: seq<YamlNode>, key: string, n: YamlNode)
    requires before <= after && n in before
    requires forall i, j | 0 <= i < j < |after| :: after[i] != after[j]
    ensures IsSection(after, key, n) ==> IsSection(before, key, n)
  {
    if IsSection(after, key, n) {
      var k := First(Pairs(after), key);
      var i :| 0 <= i < |before| && before[i] == n;
      assert after[2 * k + 1] == n == after[i];
      assert Pairs(before) <= Pairs(after);
      FirstIs(Pairs(before), key, k);
    }
  }

  /** An entry in the section under a key: the root and the section under another key do not change. */
  method SetSectionEntry(
      root: YamlNode, key: string, section: YamlNode, name: string, value: YamlNode, force: bool, ghost other: string)
    returns (ok: bool)
    requires Treelike(root) && other != key
    requires Has(Pairs(root.content), key) && Lookup(Pairs(root.content), key) == section && section.kind.MappingKind?
    modifies section`content
    ensures Treelike(root) && root.content == old(root.content)
    ensures ok <==> force || !Has(old(Pairs(section.content)), name)
    ensures Pairs(section.content)
            == if ok then Put(old(Pairs(section.content)), name, value) else old(Pairs(section.content))
    ensures SectionOf(root, other) == old(SectionOf(root, other))
  {
    LookupIsBelow(root, key);
    if Has(Pairs(root.content), other) {
      SectionsAreApart(root, other, key);
    }
    ok := SetMapEntry(section, name, value, force);
  }

  /** One half of mergeConnectionNode: an entry in one of the root's sections. The other section is left alone. */
  method UpsertSection(root: YamlNode, key: string, name: string, value: YamlNode, force: bool, ghost other: string)
    returns (error: Option<MergeError>, ghost created: YamlNode)
    requires Treelike(root) && other != key
    modifies root`content, (set n | n in root.content)`content
    ensures Treelike(root) && old(root.content) <= root.content
    ensures forall n | n in root.content :: n in old(root.content) || fresh(n)
    ensures forall n | n in old(root.content) && !IsSection(old(root.content), key, n) :: n.content == old(n.content)
    ensures (RootPairs(root), SectionOf(root, key), error)
            == Upserted(old(RootPairs(root)), old(SectionOf(root, key)), key, created, name, value, force)
    ensures SectionOf(root, other) == old(SectionOf(root, other))
  {
    created := root;
    var section := GetOrCreateMapping(root, key, other);
    if section == null {
      return Some(SectionNotMapping(key)), root;
    }
    created := section;
    var ok := SetSectionEntry(root, key, section, name, value, force, other);
    error := if ok then None else Some(AlreadyExists(key, name));
  }

  ghost function View(root: YamlNode): Registry<YamlNode>
    reads root, root.content
  {
    Registry(RootPairs(root), SectionOf(root, "credentials"), SectionOf(root, "substrates"))
  }

  ghost function Parsed(node: YamlNode?): Option<YamlNode> {
    if node == null then None else Some(node)
  }

  /** mergeConnectionNode: the registry becomes what the merge makes of it. The root keeps its nodes and gains
      some, and of all nodes that were there only the root and the two sections may change. */
  method MergeConnectionNode(root: YamlNode, name: string, profile: YamlNode?, substrate: YamlNode?, force: bool)
    returns (error: Option<MergeError>, ghost credentials: YamlNode, ghost substrates: YamlNode)
    requires Treelike(root)
    modifies root, (set n | n in root.content)`content
    ensures Treelike(root) && old(root.content) <= root.content
    ensures forall n | n in old(root.content) ::
              || n.content == old(n.content)
              || IsSection(old(root.content), "credentials", n) || IsSection(old(root.content), "substrates", n)
    ensures (View(root), error)
            == Merged(old(View(root)), Connection(name, Parsed(profile), Parsed(substrate)), credentials, substrates,
              force)
    ensures root.headComment == if old(root.content) == [] then Comment else old(root.headComment)
  {
    credentials, substrates := root, root;
    if root.content == [] {
      root.headComment := Comment;
    }
    if profile == null {
      return Some(Unreadable), root, root;
    }
    error, credentials := UpsertSection(root, "credentials", name + "-connection", profile, force, "substrates");
    if error.Some? {
      return;
    }
    if substrate == null {
      return Some(Unreadable), credentials, root;
    }
    forall n | n in old(root.content)
      ensures IsSection(root.content, "substrates", n) ==> IsSection(old(root.content), "substrates", n)
    {
      SectionBefore(old(root.content), root.content, "substrates", n);
    }
    error, substrates := UpsertSection(root, "substrates", name, substrate, force, "credentials");
  }

  /** The text of the comment plays no part. */
  const Comment: string := "Generated"
}
