/** Setting keys in a .env file (cmd/stem/cmdinit.go). */
module EnvFile {
  import opened Options
  import opened Text

  // ---------------------------------------------------------------------------------------------
  // Lines and the keys they assign
  // ---------------------------------------------------------------------------------------------

  /** strings.Cut at the first "=": what precedes it. */
  function Cut(s: string): Option<string> {
    if s == "" then None
    else if s[0] == '=' then Some("")
    else match Cut(s[1..])
      case None => None
      case Some(before) => Some([s[0]] + before)
  }

  /** The key that a line assigns; blank lines, comments and lines without "=" assign none. */
  function KeyOf(line: string): Option<string> {
    var stripped := TrimSpace(line);
    if stripped == "" || HasPrefix(stripped, "#") then None
    else match Cut(stripped)
      case None => None
      case Some(before) => Some(TrimSpace(before))
  }

  function Assignment(key: string, value: string): string {
    key + "=" + value
  }

  /** A key that can be read back from its assignment. */
  predicate Plain(key: string) {
    Trimmed(key) && Without(key, '=') && !HasPrefix(key, "#")
  }

  lemma {:induction false} TrimLeftBefore(key: string, rest: string)
    ensures TrimLeft(key + "=" + rest) == TrimLeft(key) + "=" + rest
  {
    var whole := key + "=" + rest;
    if key == "" {
      assert whole[0] == '=';
    } else {
      assert whole[0] == key[0];
      if IsSpace(key[0]) {
        assert whole[1..] == key[1..] + "=" + rest;
        TrimLeftBefore(key[1..], rest);
      }
    }
  }

  lemma {:induction false} TrimRightAfter(before: string, value: string)
    ensures TrimRight(before + "=" + value) == before + "=" + TrimRight(value)
  {
    var whole := before + "=" + value;
    if value == "" {
      assert whole == before + "=" && whole[|whole| - 1] == '=';
    } else {
      assert whole[|whole| - 1] == value[|value| - 1];
      if IsSpace(value[|value| - 1]) {
        assert whole[..|whole| - 1] == before + "=" + value[..|value| - 1];
        TrimRightAfter(before, value[..|value| - 1]);
      }
    }
  }

  lemma {:induction false} CutBefore(before: string, rest: string)
    ensures var cut := Cut(before + "=" + rest);
            && cut.Some? && |cut.value| <= |before|
            && (Without(before, '=') ==> cut.value == before)
            && (!Without(before, '=') ==> |cut.value| < |before|)
  {
    var whole := before + "=" + rest;
    if before == "" {
      assert whole[0] == '=';
    } else {
      assert whole[0] == before[0] && whole[1..] == before[1..] + "=" + rest;
      CutBefore(before[1..], rest);
      assert before == [before[0]] + before[1..];
      assert Without(before, '=') <==> before[0] != '=' && Without(before[1..], '=');
    }
  }

  lemma StrippedAssignment(key: string, value: string)
    ensures TrimSpace(Assignment(key, value)) == TrimLeft(key) + "=" + TrimRight(value)
  {
    TrimLeftBefore(key, value);
    TrimRightAfter(TrimLeft(key), value);
  }

  lemma TrimSpaceShortens(s: string)
    ensures |TrimSpace(s)| <= |TrimLeft(s)| <= |s|
    ensures |TrimLeft(s)| == |s| ==> TrimLeft(s) == s
  {
    TrimLeftIsSuffix(s);
    TrimRightIsPrefix(TrimLeft(s));
  }

  /** The key of a line whose stripped form is known. */
  lemma KeyOfStripped(line: string, before: string, after: string)
    requires TrimSpace(line) == before + "=" + after
    ensures Cut(before + "=" + after).Some?
    ensures KeyOf(line) == if HasPrefix(before, "#") then None else Some(TrimSpace(Cut(before + "=" + after).value))
  {
    CutBefore(before, after);
    var stripped := before + "=" + after;
    assert stripped[|before|] == '=';
    assert before != "" ==> stripped[0] == before[0];
    assert HasPrefix(stripped, "#") <==> HasPrefix(before, "#");
  }

  lemma PlainReadsBack(key: string, value: string)
    requires Plain(key)
    ensures KeyOf(Assignment(key, value)) == Some(key)
  {
    StrippedAssignment(key, value);
    assert TrimLeft(key) == key;
    KeyOfStripped(Assignment(key, value), key, TrimRight(value));
    CutBefore(key, TrimRight(value));
    TrimSpaceFixes(key);
  }

  lemma WhatReadsBackIsPlain(key: string, value: string)
    requires KeyOf(Assignment(key, value)) == Some(key)
    ensures Plain(key)
  {
    var left := TrimLeft(key);
    StrippedAssignment(key, value);
    KeyOfStripped(Assignment(key, value), left, TrimRight(value));
    CutBefore(left, TrimRight(value));
    var cut := Cut(left + "=" + TrimRight(value)).value;
    TrimSpaceShortens(cut);
    TrimSpaceShortens(key);
    TrimSpaceFixes(key);
  }

  /** What precedes the first "=" does not depend on what follows it. */
  lemma {:induction false} CutIgnoresRest(before: string, rest: string, other: string)
    ensures Cut(before + "=" + rest) == Cut(before + "=" + other)
  {
    var whole, changed := before + "=" + rest, before + "=" + other;
    if before == "" {
      assert whole[0] == '=' && changed[0] == '=';
    } else {
      assert whole[0] == before[0] && whole[1..] == before[1..] + "=" + rest;
      assert changed[0] == before[0] && changed[1..] == before[1..] + "=" + other;
      CutIgnoresRest(before[1..], rest, other);
    }
  }

  /** The key that an assignment of this key reads as: for "A=B" it is "A", for "#A" there is none. */
  function ReadsAs(key: string): Option<string> {
    KeyOf(Assignment(key, ""))
  }

  lemma KeyOfAssignment(key: string, value: string)
    ensures KeyOf(Assignment(key, value)) == ReadsAs(key)
  {
    var left := TrimLeft(key);
    StrippedAssignment(key, value);
    StrippedAssignment(key, "");
    KeyOfStripped(Assignment(key, value), left, TrimRight(value));
    KeyOfStripped(Assignment(key, ""), left, TrimRight(""));
    CutIgnoresRest(left, TrimRight(value), TrimRight(""));
  }

  /** A key that any line assigns is plain. */
  lemma AssignedKeysArePlain(line: string)
    ensures KeyOf(line).Some? ==> Plain(KeyOf(line).value)
  {
    if KeyOf(line).Some? {
      var stripped := TrimSpace(line);
      TrimSpaceFixes(line);
      var before := Cut(stripped).value;
      CutIsPrefix(stripped);
      TrimSpaceFixes(before);
      TrimLeftIsSuffix(before);
      TrimRightIsPrefix(TrimLeft(before));
      if before != "" {
        assert before[0] == stripped[0] && !IsSpace(before[0]);
        assert TrimLeft(before) == before;
      }
    }
  }

  lemma {:induction false} CutIsPrefix(s: string)
    ensures Cut(s).Some? ==> Cut(s).value <= s && Without(Cut(s).value, '=')
  {
    if s != "" && s[0] != '=' {
      CutIsPrefix(s[1..]);
    }
  }

  /** An assignment reads back as one of its key exactly when the key is plain. */
  lemma ReadsBackExactlyWhenPlain(key: string, value: string)
    ensures KeyOf(Assignment(key, value)) == Some(key) <==> Plain(key)
  {
    if Plain(key) {
      PlainReadsBack(key, value);
    } else if KeyOf(Assignment(key, value)) == Some(key) {
      WhatReadsBackIsPlain(key, value);
    }
  }

  // ---------------------------------------------------------------------------------------------
  // The upsert, on lines
  // ---------------------------------------------------------------------------------------------

  predicate Assigns(line: string, key: string) {
    KeyOf(line) == Some(key)
  }

  predicate Assigned(lines: seq<string>, key: string) {
    exists i | 0 <= i < |lines| :: Assigns(lines[i], key)
  }

  /** Line i is the first to assign its key, and the key is one to set. */
  predicate SetHere(lines: seq<string>, keys: seq<string>, i: nat) {
    && i < |lines| && KeyOf(lines[i]).Some? && KeyOf(lines[i]).value in keys
    && forall j | 0 <= j < i :: KeyOf(lines[j]) != KeyOf(lines[i])
  }

  /** A key without a value gets the empty one. */
  function Value(values: map<string, string>, key: string): string {
    if key in values then values[key] else ""
  }

  function Replaced(lines: seq<string>, keys: seq<string>, values: map<string, string>): seq<string> {
    seq(|lines|, i requires 0 <= i < |lines| =>
      if SetHere(lines, keys, i) then Assignment(KeyOf(lines[i]).value, Value(values, KeyOf(lines[i]).value))
      else lines[i])
  }

  /** The keys that no line assigns, as often as they are listed. */
  function Missing(lines: seq<string>, keys: seq<string>): seq<string> {
    if keys == [] then []
    else
      var n := |keys| - 1;
      if Assigned(lines, keys[n]) then Missing(lines, keys[..n]) else Missing(lines, keys[..n]) + [keys[n]]
  }

  const Header: seq<string> := ["", "# Added by tendril init"]

  function Assignments(keys: seq<string>, values: map<string, string>): seq<string> {
    seq(|keys|, i requires 0 <= i < |keys| => Assignment(keys[i], Value(values, keys[i])))
  }

  function Added(missing: seq<string>, values: map<string, string>): seq<string> {
    if missing == [] then [] else Header + Assignments(missing, values)
  }

  /** The lines after the upsert. */
  function Upserted(lines: seq<string>, keys: seq<string>, values: map<string, string>): seq<string> {
    Replaced(lines, keys, values) + Added(Missing(lines, keys), values)
  }

  // ---------------------------------------------------------------------------------------------
  // The file
  // ---------------------------------------------------------------------------------------------

  function TrimNewlines(s: string): string {
    if s != "" && s[|s| - 1] == '\n' then TrimNewlines(s[..|s| - 1]) else s
  }

  /** A file that does not exist has no lines, and neither has one of newlines only. */
  function LinesOf(content: Option<string>): seq<string> {
    if content.None? || TrimNewlines(content.value) == "" then [] else Split(TrimNewlines(content.value), '\n')
  }

  function FileOf(lines: seq<string>): string {
    Join(lines, "\n") + "\n"
  }

  lemma AssignedGrow(lines: seq<string>, i: nat)
    requires i < |lines|
    ensures forall key :: Assigned(lines[..i + 1], key) <==> Assigned(lines[..i], key) || Assigns(lines[i], key)
    ensures forall key :: Assigned(lines[..i], key) <==> exists j | 0 <= j < i :: Assigns(lines[j], key)
  {
    forall key ensures Assigned(lines[..i], key) <==> exists j | 0 <= j < i :: Assigns(lines[j], key) {
      if j :| 0 <= j < i && Assigns(lines[j], key) {
        assert lines[..i][j] == lines[j];
      }
    }
    forall key ensures Assigned(lines[..i + 1], key) <==> Assigned(lines[..i], key) || Assigns(lines[i], key) {
      assert lines[..i + 1] == lines[..i] + [lines[i]];
    }
  }

  /** The key is still to be set exactly when this line is the first to assign it. */
  lemma StillRemaining(lines: seq<string>, keys: seq<string>, i: nat, key: string)
    requires i < |lines| && Assigns(lines[i], key)
    ensures key in keys && !Assigned(lines[..i], key) <==> SetHere(lines, keys, i)
  {
    AssignedGrow(lines, i);
  }

  /** The first loop: existing assignments are replaced in place. */
  method ReplaceInPlace(was: seq<string>, keys: seq<string>, values: map<string, string>)
    returns (lines: seq<string>, remaining: set<string>)
    ensures lines == Replaced(was, keys, values)
    ensures forall key :: key in remaining <==> key in keys && !Assigned(was, key)
  {
    lines := was;
    remaining := set key | key in keys;
    ghost var replaced := Replaced(was, keys, values);
    for i := 0 to |lines|
      invariant lines == replaced[..i] + was[i..]
      invariant forall key :: key in remaining <==> key in keys && !Assigned(was[..i], key)
    {
      AssignedGrow(was, i);
      assert lines[i] == was[i];
      var stripped := TrimSpace(lines[i]);
      if stripped == "" || HasPrefix(stripped, "#") {
        Unset(was, keys, values, i);
        continue;
      }
      var cut := Cut(stripped);
      if cut.None? {
        Unset(was, keys, values, i);
        continue;
      }
      var key := TrimSpace(cut.value);
      StillRemaining(was, keys, i, key);
      if key in remaining {
        lines := lines[i := key + "=" + Value(values, key)];
        remaining := remaining - {key};
        Reset(was, keys, values, i, lines[i]);
      } else {
        Unset(was, keys, values, i);
      }
    }
    assert was[..|was|] == was && replaced[..|was|] == replaced;
  }

  lemma Reset(was: seq<string>, keys: seq<string>, values: map<string, string>, i: nat, line: string)
    requires i < |was| && line == Replaced(was, keys, values)[i]
    ensures var replaced := Replaced(was, keys, values);
            (replaced[..i] + was[i..])[i := line] == replaced[..i + 1] + was[i + 1..]
  {
  }

  lemma Unset(was: seq<string>, keys: seq<string>, values: map<string, string>, i: nat)
    requires i < |was| && !SetHere(was, keys, i)
    ensures var replaced := Replaced(was, keys, values);
            replaced[..i] + was[i..] == replaced[..i + 1] + was[i + 1..]
  {
  }

  lemma AddedGrow(missing: seq<string>, key: string, values: map<string, string>)
    ensures Added(missing + [key], values)
            == (if missing == [] then Header else Added(missing, values)) + [Assignment(key, Value(values, key))]
  {
    assert Assignments(missing + [key], values) == Assignments(missing, values) + [Assignment(key, Value(values, key))];
  }

  lemma MissingGrow(lines: seq<string>, keys: seq<string>, j: nat)
    requires j < |keys|
    ensures Missing(lines, keys[..j + 1])
            == if Assigned(lines, keys[j]) then Missing(lines, keys[..j]) else Missing(lines, keys[..j]) + [keys[j]]
  {
    assert keys[..j + 1][..j] == keys[..j];
  }

  /** The second loop: what is still to be set is appended. */
  method AppendRemaining(
      was: seq<string>, keys: seq<string>, values: map<string, string>, remaining: set<string>,
      ghost original: seq<string>)
    returns (lines: seq<string>)
    requires forall key :: key in remaining <==> key in keys && !Assigned(original, key)
    ensures lines == was + Added(Missing(original, keys), values)
  {
    lines := was;
    var appended := false;
    for j := 0 to |keys|
      invariant appended <==> Missing(original, keys[..j]) != []
      invariant lines == was + Added(Missing(original, keys[..j]), values)
    {
      ghost var missing := Missing(original, keys[..j]);
      MissingGrow(original, keys, j);
      if keys[j] !in remaining {
        continue;
      }
      if !appended {
        assert lines == was;
        lines := lines + ["", "# Added by tendril init"];
        appended := true;
      }
      AddedGrow(missing, keys[j], values);
      lines := lines + [keys[j] + "=" + Value(values, keys[j])];
    }
    assert keys[..|keys|] == keys;
  }

  /** upsertEnvFile, from what reading the file gives to what is written. */
  method UpsertEnvFile(content: Option<string>, keys: seq<string>, values: map<string, string>)
    returns (written: string)
    ensures written == FileOf(Upserted(LinesOf(content), keys, values))
  {
    var lines: seq<string> := [];
    if content.Some? {
      var trimmed := TrimNewlines(content.value);
      if trimmed != "" {
        lines := Split(trimmed, '\n');
      }
    }
    var replaced, remaining := ReplaceInPlace(lines, keys, values);
    var all := AppendRemaining(replaced, keys, values, remaining, lines);
    written := Join(all, "\n") + "\n";
  }

  // ---------------------------------------------------------------------------------------------
  // What the upsert achieves
  // ---------------------------------------------------------------------------------------------

  predicate AllPlain(keys: seq<string>) {
    forall k | 0 <= k < |keys| :: Plain(keys[k])
  }

  /** A replaced line still assigns its key. */
  lemma ReplacedKeepsKeys(lines: seq<string>, keys: seq<string>, values: map<string, string>, i: nat)
    requires i < |lines|
    ensures KeyOf(Replaced(lines, keys, values)[i]) == KeyOf(lines[i])
  {
    if SetHere(lines, keys, i) {
      var key := KeyOf(lines[i]).value;
      AssignedKeysArePlain(lines[i]);
      PlainReadsBack(key, Value(values, key));
    }
  }

  lemma AssignmentKey(keys: seq<string>, values: map<string, string>, i: nat)
    requires i < |keys|
    ensures KeyOf(Assignments(keys, values)[i]) == ReadsAs(keys[i])
  {
    KeyOfAssignment(keys[i], Value(values, keys[i]));
  }

  lemma HeaderAssignsNothing()
    ensures forall key :: !Assigned(Header, key)
  {
    TrimSpaceFixes(Header[1]);
    assert Trimmed(Header[1]);
    assert KeyOf(Header[0]) == None && KeyOf(Header[1]) == None;
  }

  lemma {:induction false} MissingKeys(lines: seq<string>, keys: seq<string>)
    ensures forall key :: key in Missing(lines, keys) <==> key in keys && !Assigned(lines, key)
  {
    if keys != [] {
      var n := |keys| - 1;
      MissingKeys(lines, keys[..n]);
      assert keys == keys[..n] + [keys[n]];
    }
  }

  lemma {:induction false} NothingMissing(lines: seq<string>, keys: seq<string>)
    ensures Missing(lines, keys) == [] <==> forall key | key in keys :: Assigned(lines, key)
  {
    if keys != [] {
      var n := |keys| - 1;
      NothingMissing(lines, keys[..n]);
      assert keys == keys[..n] + [keys[n]];
    }
  }

  /** How many lines assign the key. */
  function Count(lines: seq<string>, key: string): nat {
    if lines == [] then 0
    else Count(lines[..|lines| - 1], key) + (if Assigns(lines[|lines| - 1], key) then 1 else 0)
  }

  function Occurrences(keys: seq<string>, key: string): nat {
    if keys == [] then 0
    else Occurrences(keys[..|keys| - 1], key) + (if keys[|keys| - 1] == key then 1 else 0)
  }

  lemma {:induction false} CountBySame(a: seq<string>, b: seq<string>, key: string)
    requires |a| == |b| && forall j | 0 <= j < |a| :: KeyOf(a[j]) == KeyOf(b[j])
    ensures Count(a, key) == Count(b, key)
  {
    if a != [] {
      CountBySame(a[..|a| - 1], b[..|b| - 1], key);
    }
  }

  lemma {:induction false} CountConcat(a: seq<string>, b: seq<string>, key: string)
    ensures Count(a + b, key) == Count(a, key) + Count(b, key)
  {
    if b == [] {
      assert a + b == a;
    } else {
      CountConcat(a, b[..|b| - 1], key);
      assert (a + b)[..|a + b| - 1] == a + b[..|b| - 1];
    }
  }

  lemma {:induction false} CountOfUnassigned(lines: seq<string>, key: string)
    ensures Count(lines, key) == 0 <==> !Assigned(lines, key)
  {
    if lines != [] {
      var before := lines[..|lines| - 1];
      CountOfUnassigned(before, key);
      assert lines == before + [lines[|lines| - 1]];
      assert Assigned(lines, key) <==> Assigned(before, key) || Assigns(lines[|lines| - 1], key) by {
        AssignedGrow(lines, |lines| - 1);
        assert lines[..|lines|] == lines;
      }
    }
  }

  /** How many of the listed keys read as this key. */
  function Readers(keys: seq<string>, key: string): nat {
    if keys == [] then 0
    else Readers(keys[..|keys| - 1], key) + (if ReadsAs(keys[|keys| - 1]) == Some(key) then 1 else 0)
  }

  lemma CountGrow(lines: seq<string>, line: string, key: string)
    ensures Count(lines + [line], key) == Count(lines, key) + (if Assigns(line, key) then 1 else 0)
  {
    assert (lines + [line])[..|lines|] == lines;
  }

  lemma AssignmentsGrow(keys: seq<string>, values: map<string, string>)
    requires keys != []
    ensures var n := |keys| - 1;
            Assignments(keys, values) == Assignments(keys[..n], values) + [Assignment(keys[n], Value(values, keys[n]))]
  {
  }

  lemma {:induction false} CountOfAssignments(keys: seq<string>, values: map<string, string>, key: string)
    ensures Count(Assignments(keys, values), key) == Readers(keys, key)
  {
    if keys != [] {
      var n := |keys| - 1;
      CountOfAssignments(keys[..n], values, key);
      AssignmentsGrow(keys, values);
      KeyOfAssignment(keys[n], Value(values, keys[n]));
      CountGrow(Assignments(keys[..n], values), Assignment(keys[n], Value(values, keys[n])), key);
    }
  }

  lemma PlainReadsAsItself(key: string)
    ensures ReadsAs(key) == Some(key) <==> Plain(key)
  {
    ReadsBackExactlyWhenPlain(key, "");
  }

  lemma AssignedReadsAsItself(lines: seq<string>, key: string)
    requires Assigned(lines, key)
    ensures ReadsAs(key) == Some(key)
  {
    var i :| 0 <= i < |lines| && Assigns(lines[i], key);
    AssignedKeysArePlain(lines[i]);
    PlainReadsAsItself(key);
  }

  lemma {:induction false} ReadersOfMissing(lines: seq<string>, keys: seq<string>, key: string)
    ensures Readers(Missing(lines, keys), key) + (if Assigned(lines, key) then Occurrences(keys, key) else 0)
            == Readers(keys, key)
  {
    if keys != [] {
      var n := |keys| - 1;
      var missing := Missing(lines, keys[..n]);
      ReadersOfMissing(lines, keys[..n], key);
      if Assigned(lines, keys[n]) {
        AssignedReadsAsItself(lines, keys[n]);
      } else {
        assert (missing + [keys[n]])[..|missing|] == missing;
      }
    }
  }

  lemma CountOfAdded(missing: seq<string>, values: map<string, string>, key: string)
    ensures Count(Added(missing, values), key) == Readers(missing, key)
  {
    if missing != [] {
      HeaderAssignsNothing();
      CountConcat(Header, Assignments(missing, values), key);
      CountOfAssignments(missing, values, key);
      CountOfUnassigned(Header, key);
    }
  }

  lemma ReplacedAssignsTheSame(lines: seq<string>, keys: seq<string>, values: map<string, string>, key: string)
    ensures Assigned(Replaced(lines, keys, values), key) <==> Assigned(lines, key)
    ensures Count(Replaced(lines, keys, values), key) == Count(lines, key)
  {
    forall j | 0 <= j < |lines| ensures KeyOf(Replaced(lines, keys, values)[j]) == KeyOf(lines[j]) {
      ReplacedKeepsKeys(lines, keys, values, j);
    }
    CountBySame(Replaced(lines, keys, values), lines, key);
  }

  /** For every list of keys: every line stays where it is, and as it is unless it is the first to assign a listed key;
      and each key has the assignments that were there, and one for each listed key that reads as it, unless that
      key is assigned already. */
  lemma AssignmentsAfterUpsert(lines: seq<string>, keys: seq<string>, values: map<string, string>, key: string)
    ensures Count(Upserted(lines, keys, values), key) + (if Assigned(lines, key) then Occurrences(keys, key) else 0)
            == Count(lines, key) + Readers(keys, key)
    ensures forall i: nat | i < |lines| && !SetHere(lines, keys, i) ::
              i < |Upserted(lines, keys, values)| && Upserted(lines, keys, values)[i] == lines[i]
  {
    CountConcat(Replaced(lines, keys, values), Added(Missing(lines, keys), values), key);
    ReplacedAssignsTheSame(lines, keys, values, key);
    CountOfAdded(Missing(lines, keys), values, key);
    ReadersOfMissing(lines, keys, key);
  }

  lemma {:induction false} PlainReaders(keys: seq<string>, key: string)
    ensures Plain(key) ==> Occurrences(keys, key) <= Readers(keys, key)
    ensures AllPlain(keys) ==> Readers(keys, key) == Occurrences(keys, key)
  {
    if keys != [] {
      PlainReaders(keys[..|keys| - 1], key);
      PlainReadsAsItself(keys[|keys| - 1]);
    }
  }

  /** A key gains a duplicate exactly when a listed key other than it reads as it, or when it is assigned nowhere and
      two listed keys read as it; where all listed keys are plain, exactly when it is listed twice and assigned
      nowhere. */
  lemma DuplicatesExactlyWhen(lines: seq<string>, keys: seq<string>, values: map<string, string>, key: string)
    ensures var before := Count(lines, key);
            var more := Count(Upserted(lines, keys, values), key) > (if before > 1 then before else 1);
            && (more <==> Readers(keys, key) > if Assigned(lines, key) then Occurrences(keys, key) else 1)
            && (AllPlain(keys) ==> (more <==> !Assigned(lines, key) && Occurrences(keys, key) > 1))
  {
    AssignmentsAfterUpsert(lines, keys, values, key);
    CountOfUnassigned(lines, key);
    PlainReaders(keys, key);
  }

  // ---------------------------------------------------------------------------------------------
  // First assignments
  // ---------------------------------------------------------------------------------------------

  /** Line i is the first that assigns the key. */
  predicate FirstAssigns(lines: seq<string>, key: string, i: nat) {
    i < |lines| && Assigns(lines[i], key) && forall j | 0 <= j < i :: !Assigns(lines[j], key)
  }

  /** This is the first line that assigns the key. */
  ghost predicate First(lines: seq<string>, key: string, line: string) {
    exists i: nat :: FirstAssigns(lines, key, i) && lines[i] == line
  }

  /** The first assignment of the key sets it to its value. */
  ghost predicate IsSet(lines: seq<string>, key: string, value: string) {
    First(lines, key, Assignment(key, value))
  }

  lemma {:induction false} SomeFirst(lines: seq<string>, key: string) returns (i: nat)
    requires Assigned(lines, key)
    ensures FirstAssigns(lines, key, i)
  {
    if Assigns(lines[0], key) {
      i := 0;
    } else {
      assert Assigned(lines[1..], key) by {
        var k :| 0 <= k < |lines| && Assigns(lines[k], key);
        assert lines[1..][k - 1] == lines[k];
      }
      var rest := SomeFirst(lines[1..], key);
      i := rest + 1;
      assert lines[i] == lines[1..][rest];
      forall j | 0 <= j < i ensures !Assigns(lines[j], key) {
        assert j > 0 ==> lines[j] == lines[1..][j - 1];
      }
    }
  }

  lemma FirstInFront(a: seq<string>, b: seq<string>, key: string, line: string)
    requires First(a, key, line)
    ensures First(a + b, key, line)
  {
    var i: nat :| FirstAssigns(a, key, i) && a[i] == line;
    assert FirstAssigns(a + b, key, i);
  }

  lemma FirstBehind(a: seq<string>, b: seq<string>, key: string, line: string)
    requires !Assigned(a, key) && First(b, key, line)
    ensures First(a + b, key, line)
  {
    var i: nat :| FirstAssigns(b, key, i) && b[i] == line;
    forall j | 0 <= j < |a| + i ensures !Assigns((a + b)[j], key) {
      assert (a + b)[j] == if j < |a| then a[j] else b[j - |a|];
    }
    assert FirstAssigns(a + b, key, |a| + i);
  }

  lemma FirstIsUnique(lines: seq<string>, key: string, line: string, other: string)
    requires First(lines, key, line) && First(lines, key, other)
    ensures line == other
  {
  }

  /** The first listed key that reads as this key. */
  function FirstReader(keys: seq<string>, key: string): Option<string> {
    if keys == [] then None
    else
      var n := |keys| - 1;
      var before := FirstReader(keys[..n], key);
      if before.Some? then before else if ReadsAs(keys[n]) == Some(key) then Some(keys[n]) else None
  }

  lemma {:induction false} FirstReaderReads(keys: seq<string>, key: string)
    ensures FirstReader(keys, key).Some? ==> ReadsAs(FirstReader(keys, key).value) == Some(key)
    ensures FirstReader(keys, key).None? <==> forall j | 0 <= j < |keys| :: ReadsAs(keys[j]) != Some(key)
  {
    if keys != [] {
      var n := |keys| - 1;
      FirstReaderReads(keys[..n], key);
      assert forall j | 0 <= j < n :: keys[..n][j] == keys[j];
    }
  }

  lemma {:induction false} ReaderIsListed(keys: seq<string>, key: string)
    ensures FirstReader(keys, key).Some? ==> FirstReader(keys, key).value in keys
  {
    if keys != [] {
      ReaderIsListed(keys[..|keys| - 1], key);
    }
  }

  lemma ListedIsReader(keys: seq<string>, key: string)
    requires Plain(key) && key in keys
    ensures FirstReader(keys, key).Some?
  {
    PlainReadsAsItself(key);
    FirstReaderReads(keys, key);
  }

  /** The first assignment in the block that is added is that of the first reader. */
  lemma {:induction false} FirstOfAssignments(keys: seq<string>, values: map<string, string>, key: string)
    requires FirstReader(keys, key).Some?
    ensures var reader := FirstReader(keys, key).value;
            First(Assignments(keys, values), key, Assignment(reader, Value(values, reader)))
  {
    var n := |keys| - 1;
    var before, line := Assignments(keys[..n], values), Assignment(keys[n], Value(values, keys[n]));
    AssignmentsGrow(keys, values);
    if FirstReader(keys[..n], key).Some? {
      FirstOfAssignments(keys[..n], values, key);
      var reader := FirstReader(keys, key).value;
      FirstInFront(before, [line], key, Assignment(reader, Value(values, reader)));
    } else {
      FirstReaderReads(keys[..n], key);
      forall j | 0 <= j < n ensures !Assigns(before[j], key) {
        AssignmentKey(keys[..n], values, j);
        assert ReadsAs(keys[..n][j]) != Some(key);
      }
      KeyOfAssignment(keys[n], Value(values, keys[n]));
      assert FirstAssigns([line], key, 0);
      FirstBehind(before, [line], key, line);
    }
  }

  /** For a key that is assigned nowhere, all readers are missing. */
  lemma {:induction false} FirstReaderOfMissing(lines: seq<string>, keys: seq<string>, key: string)
    requires !Assigned(lines, key)
    ensures FirstReader(Missing(lines, keys), key) == FirstReader(keys, key)
  {
    if keys != [] {
      var n := |keys| - 1;
      var missing := Missing(lines, keys[..n]);
      FirstReaderOfMissing(lines, keys[..n], key);
      if Assigned(lines, keys[n]) {
        AssignedReadsAsItself(lines, keys[n]);
      } else {
        assert (missing + [keys[n]])[..|missing|] == missing;
      }
    }
  }

  lemma FirstOfReplaced(lines: seq<string>, keys: seq<string>, values: map<string, string>, key: string)
    requires key in keys && Assigned(lines, key)
    ensures First(Replaced(lines, keys, values), key, Assignment(key, Value(values, key)))
  {
    var i := SomeFirst(lines, key);
    assert SetHere(lines, keys, i);
    forall j | 0 <= j < |lines| ensures KeyOf(Replaced(lines, keys, values)[j]) == KeyOf(lines[j]) {
      ReplacedKeepsKeys(lines, keys, values, j);
    }
    assert FirstAssigns(Replaced(lines, keys, values), key, i);
  }

  lemma FirstOfAssigned(lines: seq<string>, keys: seq<string>, values: map<string, string>, key: string)
    requires key in keys && Assigned(lines, key)
    ensures IsSet(Upserted(lines, keys, values), key, Value(values, key))
  {
    FirstOfReplaced(lines, keys, values, key);
    FirstInFront(Replaced(lines, keys, values), Added(Missing(lines, keys), values), key,
      Assignment(key, Value(values, key)));
  }

  lemma FirstOfAdded(missing: seq<string>, values: map<string, string>, key: string)
    requires FirstReader(missing, key).Some?
    ensures var reader := FirstReader(missing, key).value;
            First(Added(missing, values), key, Assignment(reader, Value(values, reader)))
  {
    var reader := FirstReader(missing, key).value;
    FirstOfAssignments(missing, values, key);
    HeaderAssignsNothing();
    FirstBehind(Header, Assignments(missing, values), key, Assignment(reader, Value(values, reader)));
  }

  lemma FirstOfUnassigned(lines: seq<string>, keys: seq<string>, values: map<string, string>, key: string)
    requires !Assigned(lines, key) && FirstReader(keys, key).Some?
    ensures var reader := FirstReader(keys, key).value;
            First(Upserted(lines, keys, values), key, Assignment(reader, Value(values, reader)))
  {
    var reader := FirstReader(keys, key).value;
    FirstReaderOfMissing(lines, keys, key);
    FirstOfAdded(Missing(lines, keys), values, key);
    ReplacedAssignsTheSame(lines, keys, values, key);
    FirstBehind(Replaced(lines, keys, values), Added(Missing(lines, keys), values), key,
      Assignment(reader, Value(values, reader)));
  }

  /** For every list of keys, a listed key ends up set exactly when it is plain and, unless it was assigned before,
      the first listed key that reads as it writes the same line; where no other listed key reads as it, exactly
      when it is plain. */
  lemma FirstAssignmentIsSetExactlyWhen(lines: seq<string>, keys: seq<string>, values: map<string, string>, key: string)
    requires key in keys
    ensures var reader := FirstReader(keys, key);
            var set' := IsSet(Upserted(lines, keys, values), key, if key in values then values[key] else "");
            && (set' <==>
                  && Plain(key)
                  && (|| Assigned(lines, key)
                      || (&& reader.Some?
                          && Assignment(reader.value, Value(values, reader.value))
                             == Assignment(key, Value(values, key)))))
            && ((forall k | k in keys && ReadsAs(k) == Some(key) :: k == key) ==> (set' <==> Plain(key)))
  {
    var up, value := Upserted(lines, keys, values), Value(values, key);
    PlainReadsAsItself(key);
    FirstReaderReads(keys, key);
    ReaderIsListed(keys, key);
    if Plain(key) {
      ListedIsReader(keys, key);
    }
    KeyOfAssignment(key, value);
    if Assigned(lines, key) {
      AssignedReadsAsItself(lines, key);
      FirstOfAssigned(lines, keys, values, key);
    } else if FirstReader(keys, key).Some? {
      var reader := FirstReader(keys, key).value;
      FirstOfUnassigned(lines, keys, values, key);
      if IsSet(up, key, value) {
        FirstIsUnique(up, key, Assignment(key, value), Assignment(reader, Value(values, reader)));
      }
    }
  }

  /** Where all listed keys are plain, every one of them ends up set. */
  lemma FirstAssignmentIsSet(lines: seq<string>, keys: seq<string>, values: map<string, string>, key: string)
    requires AllPlain(keys) && key in keys
    ensures IsSet(Upserted(lines, keys, values), key, Value(values, key))
  {
    forall k | k in keys ensures ReadsAs(k) == Some(k) {
      PlainReadsAsItself(k);
    }
    FirstAssignmentIsSetExactlyWhen(lines, keys, values, key);
  }

  /** Lines in which every listed key is set are left as they are. */
  lemma UpsertOfSetLines(up: seq<string>, keys: seq<string>, values: map<string, string>)
    requires forall key | key in keys :: IsSet(up, key, Value(values, key))
    ensures Upserted(up, keys, values) == up
  {
    forall i | 0 <= i < |up| ensures Replaced(up, keys, values)[i] == up[i] {
      if SetHere(up, keys, i) {
        var key := KeyOf(up[i]).value;
        assert FirstAssigns(up, key, i) && First(up, key, up[i]);
        FirstIsUnique(up, key, up[i], Assignment(key, Value(values, key)));
      }
    }
    NothingMissing(up, keys);
    assert Replaced(up, keys, values) == up;
  }
}
