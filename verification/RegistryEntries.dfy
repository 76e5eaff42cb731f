/** The key-value pairs of a YAML mapping, and what a merge makes of them (cmd/stem/cmdgitsetupmerge.go). */
module RegistryEntries {
  import opened Options

  type Entries<V> = seq<(string, V)>

  /** The position of the first pair with this key, or the number of pairs. */
  function First<V>(entries: Entries<V>, key: string): (k: nat)
    ensures k <= |entries|
    ensures k < |entries| ==> entries[k].0 == key
    ensures forall j | 0 <= j < k :: entries[j].0 != key
  {
    if entries == [] || entries[0].0 == key then 0 else 1 + First(entries[1..], key)
  }

  predicate Has<V>(entries: Entries<V>, key: string) {
    First(entries, key) < |entries|
  }

  function Lookup<V>(entries: Entries<V>, key: string): V
    requires Has(entries, key)
  {
    entries[First(entries, key)].1
  }

  /** Replaces the value of the first pair with this key, or appends a pair. */
  function Put<V>(entries: Entries<V>, key: string, value: V): Entries<V> {
    if Has(entries, key) then entries[First(entries, key) := (key, value)] else entries + [(key, value)]
  }

  /** The pairs with other keys, in order. */
  function Others<V>(entries: Entries<V>, keys: set<string>): Entries<V> {
    if entries == [] then []
    else
      var n := |entries| - 1;
      Others(entries[..n], keys) + (if entries[n].0 in keys then [] else [entries[n]])
  }

  lemma FirstIs<V>(entries: Entries<V>, key: string, k: nat)
    requires k <= |entries| && (k < |entries| ==> entries[k].0 == key) && forall j | 0 <= j < k :: entries[j].0 != key
    ensures First(entries, key) == k
  {
  }

  lemma PutIsFound<V>(entries: Entries<V>, key: string, value: V)
    ensures Has(Put(entries, key, value), key) && Lookup(Put(entries, key, value), key) == value
    ensures First(Put(entries, key, value), key) == First(entries, key)
  {
    FirstIs(Put(entries, key, value), key, First(entries, key));
  }

  /** A second Put replaces the value of the first. */
  lemma PutTwice<V>(entries: Entries<V>, key: string, first: V, second: V)
    ensures Put(Put(entries, key, first), key, second) == Put(entries, key, second)
  {
    PutIsFound(entries, key, first);
    if !Has(entries, key) {
      assert (entries + [(key, first)])[|entries| := (key, second)] == entries + [(key, second)];
    }
  }

  lemma {:induction false} OthersConcat<V>(a: Entries<V>, b: Entries<V>, keys: set<string>)
    ensures Others(a + b, keys) == Others(a, keys) + Others(b, keys)
  {
    if b == [] {
      assert a + b == a;
    } else {
      var n := |b| - 1;
      OthersConcat(a, b[..n], keys);
      assert (a + b)[..|a + b| - 1] == a + b[..n];
    }
  }

  lemma OthersOfOne<V>(pair: (string, V), keys: set<string>)
    ensures Others([pair], keys) == if pair.0 in keys then [] else [pair]
  {
    assert [pair][..0] == [];
  }

  lemma ReplaceKeepsOthers<V>(a: Entries<V>, was: (string, V), now: (string, V), b: Entries<V>, keys: set<string>)
    requires was.0 in keys && now.0 in keys
    ensures Others(a + [was] + b, keys) == Others(a + [now] + b, keys)
  {
    OthersOfOne(was, keys);
    OthersOfOne(now, keys);
    OthersConcat(a, [was], keys);
    OthersConcat(a, [now], keys);
    OthersConcat(a + [was], b, keys);
    OthersConcat(a + [now], b, keys);
  }

  /** A Put leaves every other pair as it is, in order. */
  lemma PutKeepsOthers<V>(entries: Entries<V>, key: string, value: V, keys: set<string>)
    requires key in keys
    ensures Others(Put(entries, key, value), keys) == Others(entries, keys)
  {
    OthersOfOne((key, value), keys);
    if Has(entries, key) {
      var k := First(entries, key);
      ReplaceKeepsOthers(entries[..k], entries[k], (key, value), entries[k + 1..], keys);
      assert entries == entries[..k] + [entries[k]] + entries[k + 1..];
      assert Put(entries, key, value) == entries[..k] + [(key, value)] + entries[k + 1..];
    } else {
      OthersConcat(entries, [(key, value)], keys);
    }
  }

  // ---------------------------------------------------------------------------------------------
  // The merge
  // ---------------------------------------------------------------------------------------------

  /** What the root has under "credentials" or "substrates". */
  datatype Section<V> = Missing | NotMapping | Mapping(entries: Entries<V>)

  /** The root's own pairs, when it is a mapping, and its two sections. */
  datatype Registry<V> = Registry(root: Option<Entries<V>>, credentials: Section<V>, substrates: Section<V>)

  datatype MergeError = Unreadable | SectionNotMapping(section: string) | AlreadyExists(section: string, entry: string)

  /** The pairs of a section; a missing one has none. */
  function EntriesOf<V>(s: Section<V>): Entries<V> {
    if s.Mapping? then s.entries else []
  }

  /** Sets one entry in a section; created is the mapping node that a missing section becomes. */
  function Upserted<V>(
    root: Option<Entries<V>>, section: Section<V>, key: string, created: V, name: string, value: V, force: bool)
    : (Option<Entries<V>>, Section<V>, Option<MergeError>)
  {
    if root.None? || section.NotMapping? then (root, section, Some(SectionNotMapping(key)))
    else if Has(EntriesOf(section), name) && !force then (root, section, Some(AlreadyExists(key, name)))
    else (if section.Missing? then Some(root.value + [(key, created)]) else root,
          Mapping(Put(EntriesOf(section), name, value)), None)
  }

  /** What one run adds: the credential profile and the substrate, absent when their text does not parse. */
  datatype Connection<V> = Connection(name: string, profile: Option<V>, substrate: Option<V>)

  function ProfileName(name: string): string {
    name + "-connection"
  }

  /** mergeConnectionNode. */
  function Merged<V>(r: Registry<V>, c: Connection<V>, credentials: V, substrates: V, force: bool)
    : (Registry<V>, Option<MergeError>)
  {
    if c.profile.None? then (r, Some(Unreadable))
    else
      var (root, section, error) :=
        Upserted(r.root, r.credentials, "credentials", credentials, ProfileName(c.name), c.profile.value, force);
      var half := r.(root := root, credentials := section);
      if error.Some? then (half, error)
      else if c.substrate.None? then (half, Some(Unreadable))
      else
        var (whole, last, failure) :=
          Upserted(root, r.substrates, "substrates", substrates, c.name, c.substrate.value, force);
        (half.(root := whole, substrates := last), failure)
  }

  /** The root's own pairs, when it has any. */
  function PairsOf<V>(root: Option<Entries<V>>): Entries<V> {
    if root.Some? then root.value else []
  }

  /** The merge succeeds exactly when both fragments parse, the root and the existing sections are mappings, and
      no entry of the same name exists, unless it is forced. */
  lemma MergeSucceedsExactlyWhen<V>(r: Registry<V>, c: Connection<V>, credentials: V, substrates: V, force: bool)
    ensures Merged(r, c, credentials, substrates, force).1 == None <==>
            && c.profile.Some? && c.substrate.Some?
            && r.root.Some? && !r.credentials.NotMapping? && !r.substrates.NotMapping?
            && (force || (!Has(EntriesOf(r.credentials), ProfileName(c.name)) && !Has(EntriesOf(r.substrates), c.name)))
  {
  }

  lemma UpsertKeepsOthers<V>(
    root: Option<Entries<V>>, section: Section<V>, key: string, created: V, name: string, value: V, force: bool)
    ensures Others(EntriesOf(Upserted(root, section, key, created, name, value, force).1), {name})
            == Others(EntriesOf(section), {name})
  {
    PutKeepsOthers(EntriesOf(section), name, value, {name});
  }

  /** A section that is created is the only change at the root. */
  lemma UpsertKeepsRoot<V>(
    root: Option<Entries<V>>, section: Section<V>, key: string, created: V, name: string, value: V, force: bool,
    keys: set<string>)
    requires key in keys
    ensures var after := Upserted(root, section, key, created, name, value, force).0;
            PairsOf(root) <= PairsOf(after) && Others(PairsOf(after), keys) == Others(PairsOf(root), keys)
  {
    OthersConcat(PairsOf(root), [(key, created)], keys);
    OthersOfOne((key, created), keys);
  }

  /** Without force, whatever the outcome, nothing that was there is replaced or moved. */
  lemma UnforcedMergeOnlyAppends<V>(r: Registry<V>, c: Connection<V>, credentials: V, substrates: V)
    ensures var after := Merged(r, c, credentials, substrates, false).0;
            && PairsOf(r.root) <= PairsOf(after.root)
            && EntriesOf(r.credentials) <= EntriesOf(after.credentials)
            && EntriesOf(r.substrates) <= EntriesOf(after.substrates)
  {
  }

  /** On every outcome, errors included, every other key keeps its value and its place among the others, at the
      root and in both sections; without force nothing at all that was there is replaced or moved. */
  lemma MergeKeepsEveryOtherKey<V>(r: Registry<V>, c: Connection<V>, credentials: V, substrates: V, force: bool)
    ensures var after := Merged(r, c, credentials, substrates, force).0;
            && PairsOf(r.root) <= PairsOf(after.root)
            && Others(PairsOf(after.root), {"credentials", "substrates"})
              == Others(PairsOf(r.root), {"credentials", "substrates"})
            && Others(EntriesOf(after.credentials), {ProfileName(c.name)})
              == Others(EntriesOf(r.credentials), {ProfileName(c.name)})
            && Others(EntriesOf(after.substrates), {c.name}) == Others(EntriesOf(r.substrates), {c.name})
            && (!force ==>
                  && EntriesOf(r.credentials) <= EntriesOf(after.credentials)
                  && EntriesOf(r.substrates) <= EntriesOf(after.substrates))
  {
    UnforcedMergeOnlyAppends(r, c, credentials, substrates);
    if c.profile.Some? {
      var profile, keys := ProfileName(c.name), {"credentials", "substrates"};
      var root := Upserted(r.root, r.credentials, "credentials", credentials, profile, c.profile.value, force).0;
      UpsertKeepsOthers(r.root, r.credentials, "credentials", credentials, profile, c.profile.value, force);
      UpsertKeepsRoot(r.root, r.credentials, "credentials", credentials, profile, c.profile.value, force, keys);
      if c.substrate.Some? {
        UpsertKeepsOthers(root, r.substrates, "substrates", substrates, c.name, c.substrate.value, force);
        UpsertKeepsRoot(root, r.substrates, "substrates", substrates, c.name, c.substrate.value, force, keys);
      }
    }
  }

  /** The merge succeeds exactly when both fragments parse, the root and the existing sections are mappings, and no
      entry of the same name exists, unless it is forced; and then both new entries are found by lookup. */
  lemma MergedEntriesAreFound<V>(r: Registry<V>, c: Connection<V>, credentials: V, substrates: V, force: bool)
    ensures var (after, error) := Merged(r, c, credentials, substrates, force);
            && (error == None <==>
                  && c.profile.Some? && c.substrate.Some?
                  && r.root.Some? && !r.credentials.NotMapping? && !r.substrates.NotMapping?
                  && (|| force
                      || (&& !Has(EntriesOf(r.credentials), ProfileName(c.name))
                          && !Has(EntriesOf(r.substrates), c.name))))
            && (error == None ==>
                  && Has(EntriesOf(after.credentials), ProfileName(c.name))
                  && Has(EntriesOf(after.substrates), c.name)
                  && Some(Lookup(EntriesOf(after.credentials), ProfileName(c.name))) == c.profile
                  && Some(Lookup(EntriesOf(after.substrates), c.name)) == c.substrate)
  {
    MergeSucceedsExactlyWhen(r, c, credentials, substrates, force);
    if Merged(r, c, credentials, substrates, force).1 == None {
      PutIsFound(EntriesOf(r.credentials), ProfileName(c.name), c.profile.value);
      PutIsFound(EntriesOf(r.substrates), c.name, c.substrate.value);
    }
  }

  /** A merge that fails leaves the substrates as they were; and what it did before is nothing at all, or the
      credentials' entry when only the substrate failed. */
  lemma FailedMergeStopsThere<V>(r: Registry<V>, c: Connection<V>, credentials: V, substrates: V, force: bool)
    ensures var (after, error) := Merged(r, c, credentials, substrates, force);
            error.Some? ==>
              && after.substrates == r.substrates
              && if c.profile.None? || r.root.None? || r.credentials.NotMapping?
                    || (!force && Has(EntriesOf(r.credentials), ProfileName(c.name)))
                 then after == r
                 else Has(EntriesOf(after.credentials), ProfileName(c.name))
                      && Some(Lookup(EntriesOf(after.credentials), ProfileName(c.name))) == c.profile
  {
    if c.profile.Some? {
      PutIsFound(EntriesOf(r.credentials), ProfileName(c.name), c.profile.value);
    }
  }

  lemma UpsertTwice<V>(
    root: Option<Entries<V>>, section: Section<V>, key: string, created: V, created': V, name: string, first: V,
    second: V)
    ensures var (root', section', error) := Upserted(root, section, key, created, name, first, true);
            error.None? ==>
              Upserted(root', section', key, created', name, second, true)
              == Upserted(root, section, key, created, name, second, true)
  {
    PutTwice(EntriesOf(section), name, first, second);
  }

  /** A forced merge that succeeded can be repeated: it succeeds again, and leaves what the second run alone
      would have made of the original; with the same entries, it changes nothing. */
  lemma ForcedMergeIsIdempotent<V>(
    r: Registry<V>, first: Connection<V>, second: Connection<V>, credentials: V, substrates: V, credentials': V,
    substrates': V)
    requires Merged(r, first, credentials, substrates, true).1 == None
    requires second.name == first.name && second.profile.Some? && second.substrate.Some?
    ensures var once := Merged(r, first, credentials, substrates, true).0;
            var twice := Merged(once, second, credentials', substrates', true);
            && twice == Merged(r, second, credentials, substrates, true)
            && twice.1 == None
            && (second == first ==> twice.0 == once)
  {
    var profile := ProfileName(first.name);
    UpsertTwice(r.root, r.credentials, "credentials", credentials, credentials', profile, first.profile.value,
      second.profile.value);
    var root := Upserted(r.root, r.credentials, "credentials", credentials, profile, first.profile.value, true).0;
    UpsertTwice(root, r.substrates, "substrates", substrates, substrates', first.name, first.substrate.value,
      second.substrate.value);
  }
}
