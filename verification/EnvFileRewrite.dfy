/** Running the upsert a second time on the file that it wrote (cmd/stem/cmdinit.go). */
module EnvFileRewrite {
  import opened Options
  import opened Text
  import opened Sequences
  import opened EnvFile

  // ---------------------------------------------------------------------------------------------
  // Reading back what was written
  // ---------------------------------------------------------------------------------------------

  /** Lines as they are read from a file: without newlines, and with no blank line at the end. */
  predicate Proper(lines: seq<string>) {
    && AllOnOneLine(lines)
    && (lines == [] || lines[|lines| - 1] != "")
  }

  lemma {:induction false} SplitEnds(s: string)
    ensures var pieces := Split(s, '\n'); pieces[|pieces| - 1] == "" <==> s == "" || s[|s| - 1] == '\n'
  {
    if s != "" {
      SplitEnds(s[1..]);
    }
  }

  lemma {:induction false} TrimNewlinesEnds(s: string)
    ensures TrimNewlines(s) == "" || TrimNewlines(s)[|TrimNewlines(s)| - 1] != '\n'
  {
    if s != "" && s[|s| - 1] == '\n' {
      TrimNewlinesEnds(s[..|s| - 1]);
    }
  }

  lemma LinesReadAreProper(content: Option<string>)
    ensures Proper(LinesOf(content))
  {
    if content.Some? && TrimNewlines(content.value) != "" {
      TrimNewlinesEnds(content.value);
      SplitPieces(TrimNewlines(content.value), '\n');
      SplitEnds(TrimNewlines(content.value));
    }
  }

  lemma OnePiece(s: string)
    ensures |Split(s, '\n')| == 1 <==> Without(s, '\n')
    ensures Without(s, '\n') ==> Split(s, '\n') == [s]
  {
    JoinSplit(s, '\n');
    SplitPieces(s, '\n');
    if Without(s, '\n') {
      SplitWithout(s, '\n');
    }
  }

  /** The lines of a file as a reader sees them: a line that holds newlines is several. */
  function Pieces(lines: seq<string>): seq<string> {
    if lines == [] then [] else Pieces(lines[..|lines| - 1]) + Split(lines[|lines| - 1], '\n')
  }

  lemma {:induction false} PiecesOfJoin(lines: seq<string>)
    requires lines != []
    ensures Split(Join(lines, "\n"), '\n') == Pieces(lines)
  {
    var n := |lines| - 1;
    if n > 0 {
      var before := lines[..n];
      PiecesOfJoin(before);
      assert lines == before + [lines[n]];
      JoinConcat(before, [lines[n]], "\n");
      SplitConcat(Join(before, "\n"), lines[n], '\n');
    }
  }

  predicate AllOnOneLine(lines: seq<string>) {
    forall k | 0 <= k < |lines| :: Without(lines[k], '\n')
  }

  lemma OneMore(before: seq<string>, line: string)
    ensures AllOnOneLine(before + [line]) <==> AllOnOneLine(before) && Without(line, '\n')
  {
    var lines := before + [line];
    assert forall k | 0 <= k < |before| :: lines[k] == before[k];
    assert lines[|before|] == line;
  }

  lemma {:induction false} PieceCount(lines: seq<string>)
    ensures |Pieces(lines)| >= |lines|
    ensures |Pieces(lines)| == |lines| <==> AllOnOneLine(lines)
    ensures |Pieces(lines)| == |lines| ==> Pieces(lines) == lines
  {
    if lines != [] {
      var n := |lines| - 1;
      PieceCount(lines[..n]);
      OnePiece(lines[n]);
      OneMore(lines[..n], lines[n]);
      Snoc(lines);
    }
  }

  lemma {:induction false} PieceOfLine(lines: seq<string>, i: nat)
    requires i < |lines|
    ensures Split(lines[i], '\n')[0] in Pieces(lines)
  {
    if i < |lines| - 1 {
      PieceOfLine(lines[..|lines| - 1], i);
    }
  }

  function TrimBlank(lines: seq<string>): seq<string> {
    if lines != [] && lines[|lines| - 1] == "" then TrimBlank(lines[..|lines| - 1]) else lines
  }

  lemma {:induction false} TrimBlankConcat(a: seq<string>, b: seq<string>)
    requires TrimBlank(b) != []
    ensures TrimBlank(a + b) == a + TrimBlank(b)
  {
    if b[|b| - 1] == "" {
      TrimBlankConcat(a, b[..|b| - 1]);
      assert (a + b)[..|a + b| - 1] == a + b[..|b| - 1];
    }
  }

  lemma OneBlankLess(lines: seq<string>)
    ensures TrimBlank(lines + [""]) == TrimBlank(lines)
  {
    assert (lines + [""])[..|lines|] == lines;
  }

  lemma SplitNewlineAtEnd(s: string)
    ensures Split(s + ['\n'], '\n') == Split(s, '\n') + [""]
  {
    SplitConcat(s, "", '\n');
    assert s + ['\n'] + "" == s + ['\n'];
  }

  /** Newlines at the end of a text are blank pieces at the end of its split. */
  lemma {:induction false} TrimBlankOfSplit(s: string)
    ensures TrimBlank(Split(s, '\n')) == if TrimNewlines(s) == "" then [] else Split(TrimNewlines(s), '\n')
  {
    SplitEnds(s);
    if s != "" && s[|s| - 1] == '\n' {
      var before := s[..|s| - 1];
      TrimBlankOfSplit(before);
      SplitNewlineAtEnd(before);
      OneBlankLess(Split(before, '\n'));
      Snoc(s);
    }
  }

  /** Only the last line holds newlines, and only at its end. */
  predicate Lined(lines: seq<string>)
    requires lines != []
  {
    var n := |lines| - 1;
    && (forall k | 0 <= k < n :: Without(lines[k], '\n'))
    && Without(TrimNewlines(lines[n]), '\n')
  }

  function Read(lines: seq<string>): seq<string> {
    LinesOf(Some(FileOf(lines)))
  }

  lemma ReadPieces(lines: seq<string>)
    requires lines != []
    ensures Read(lines) == TrimBlank(Pieces(lines))
  {
    var s := Join(lines, "\n");
    assert (s + "\n")[..|s|] == s;
    PiecesOfJoin(lines);
    TrimBlankOfSplit(s);
  }

  lemma ReadSplit(lines: seq<string>)
    requires lines != [] && TrimNewlines(lines[|lines| - 1]) != ""
    ensures Read(lines) == Pieces(lines[..|lines| - 1]) + Split(TrimNewlines(lines[|lines| - 1]), '\n')
  {
    var n := |lines| - 1;
    ReadPieces(lines);
    TrimBlankOfSplit(lines[n]);
    TrimBlankConcat(Pieces(lines[..n]), Split(lines[n], '\n'));
  }

  /** Reading back gives as many lines as were written exactly when only the last holds newlines, at its end. */
  lemma ReadCount(lines: seq<string>)
    requires lines != [] && TrimNewlines(lines[|lines| - 1]) != ""
    ensures |Read(lines)| >= |lines|
    ensures |Read(lines)| == |lines| <==> Lined(lines)
    ensures Lined(lines) ==> Read(lines) == lines[..|lines| - 1] + [TrimNewlines(lines[|lines| - 1])]
  {
    var n := |lines| - 1;
    ReadSplit(lines);
    PieceCount(lines[..n]);
    OnePiece(TrimNewlines(lines[n]));
    assert forall k | 0 <= k < n :: lines[..n][k] == lines[k];
  }

  // ---------------------------------------------------------------------------------------------
  // What the first run writes
  // ---------------------------------------------------------------------------------------------

  lemma {:induction false} TrimNewlinesAfter(before: string, value: string)
    ensures TrimNewlines(before + "=" + value) == before + "=" + TrimNewlines(value)
  {
    var whole := before + "=" + value;
    if value != "" && value[|value| - 1] == '\n' {
      assert whole[..|whole| - 1] == before + "=" + value[..|value| - 1];
      TrimNewlinesAfter(before, value[..|value| - 1]);
    }
  }

  /** A line that holds more than newlines. */
  predicate Ending(line: string) {
    TrimNewlines(line) != ""
  }

  lemma SetLine(key: string, value: string)
    ensures Ending(Assignment(key, value))
    ensures Without(key, '\n') ==>
              && (Without(Assignment(key, value), '\n') <==> Without(value, '\n'))
              && (Without(TrimNewlines(Assignment(key, value)), '\n') <==> Without(TrimNewlines(value), '\n'))
  {
    TrimNewlinesAfter(key, value);
    WithoutAssignment(key, value);
    WithoutAssignment(key, TrimNewlines(value));
  }

  lemma WithoutAssignment(key: string, value: string)
    ensures Without(Assignment(key, value), '\n') <==> Without(key, '\n') && Without(value, '\n')
  {
    var line := Assignment(key, value);
    forall k | 0 <= k < |key| ensures line[k] == key[k] {
    }
    forall k | 0 <= k < |value| ensures line[|key| + 1 + k] == value[k] {
    }
  }

  /** Line i of the result is one that the upsert sets for this key. */
  ghost predicate SetsLine(lines: seq<string>, keys: seq<string>, i: nat, key: string) {
    if i < |lines| then SetHere(lines, keys, i) && KeyOf(lines[i]) == Some(key)
    else
      && i - |lines| >= |Header| && i - |lines| - |Header| < |Missing(lines, keys)|
      && Missing(lines, keys)[i - |lines| - |Header|] == key
  }

  lemma HeaderOnOneLine()
    ensures |Header| == 2 && Without(Header[0], '\n') && Without(Header[1], '\n')
  {
  }

  lemma LineInFront(a: seq<string>, b: seq<string>, i: nat)
    requires i < |a|
    ensures (a + b)[i] == a[i]
  {
  }

  lemma LineBehind(a: seq<string>, b: seq<string>, i: nat)
    requires i < |b|
    ensures (a + b)[|a| + i] == b[i]
  {
  }

  lemma HeaderLine(missing: seq<string>, values: map<string, string>, i: nat)
    requires missing != [] && i < |Header|
    ensures Without(Added(missing, values)[i], '\n')
  {
    HeaderOnOneLine();
    LineInFront(Header, Assignments(missing, values), i);
  }

  lemma AssignmentLine(missing: seq<string>, values: map<string, string>, i: nat)
    requires i < |missing|
    ensures Added(missing, values)[|Header| + i] == Assignment(missing[i], Value(values, missing[i]))
  {
    LineBehind(Header, Assignments(missing, values), i);
  }

  lemma UpsertedAt(lines: seq<string>, keys: seq<string>, values: map<string, string>, i: nat)
    ensures var up, added := Upserted(lines, keys, values), Added(Missing(lines, keys), values);
            && |up| == |lines| + |added|
            && (i < |up| ==> up[i] == if i < |lines| then Replaced(lines, keys, values)[i] else added[i - |lines|])
  {
  }

  lemma SetLineIsWritten(lines: seq<string>, keys: seq<string>, values: map<string, string>, i: nat, key: string)
    requires SetsLine(lines, keys, i, key)
    ensures i < |Upserted(lines, keys, values)|
            && Upserted(lines, keys, values)[i] == Assignment(key, Value(values, key))
  {
    if i < |lines| {
      ReplacedLineIsWritten(lines, keys, values, i);
    } else {
      AddedLineIsWritten(lines, keys, values, i - |lines| - |Header|);
    }
  }

  lemma ReplacedLineIsWritten(lines: seq<string>, keys: seq<string>, values: map<string, string>, i: nat)
    requires SetHere(lines, keys, i)
    ensures var key := KeyOf(lines[i]).value;
            && i < |Upserted(lines, keys, values)|
            && Upserted(lines, keys, values)[i] == Assignment(key, Value(values, key))
  {
    UpsertedAt(lines, keys, values, i);
    ReplacedLine(lines, keys, values, i);
  }

  lemma AddedLineIsWritten(lines: seq<string>, keys: seq<string>, values: map<string, string>, j: nat)
    requires j < |Missing(lines, keys)|
    ensures var key, i := Missing(lines, keys)[j], |lines| + |Header| + j;
            && i < |Upserted(lines, keys, values)|
            && Upserted(lines, keys, values)[i] == Assignment(key, Value(values, key))
  {
    UpsertedAt(lines, keys, values, |lines| + |Header| + j);
    AssignmentLine(Missing(lines, keys), values, j);
  }

  lemma ReplacedLine(lines: seq<string>, keys: seq<string>, values: map<string, string>, i: nat)
    requires SetHere(lines, keys, i)
    ensures Replaced(lines, keys, values)[i] == Assignment(KeyOf(lines[i]).value, Value(values, KeyOf(lines[i]).value))
  {
  }

  /** A line of the result that the upsert does not set. */
  lemma OtherLine(lines: seq<string>, keys: seq<string>, values: map<string, string>, i: nat)
    requires Proper(lines) && i < |Upserted(lines, keys, values)|
    requires if i < |lines| then !SetHere(lines, keys, i) else i - |lines| < |Header|
    ensures var up := Upserted(lines, keys, values); Without(up[i], '\n') && (i + 1 == |up| ==> up[i] != "")
  {
    UpsertedAt(lines, keys, values, i);
    if i >= |lines| {
      HeaderLine(Missing(lines, keys), values, i - |lines|);
    } else {
      LineThatStays(lines, keys, values, i);
    }
  }

  lemma LineThatStays(lines: seq<string>, keys: seq<string>, values: map<string, string>, i: nat)
    requires i < |lines| && !SetHere(lines, keys, i)
    ensures Replaced(lines, keys, values)[i] == lines[i]
  {
  }

  /** Every line of the result is set for a listed key or holds no newline, and in the latter case does not end the
      result blank. */
  lemma LineOfUpserted(lines: seq<string>, keys: seq<string>, values: map<string, string>, i: nat)
    returns (key: Option<string>)
    requires Proper(lines) && i < |Upserted(lines, keys, values)|
    ensures var line := Upserted(lines, keys, values)[i];
            match key
            case Some(k) => k in keys && SetsLine(lines, keys, i, k) && line == Assignment(k, Value(values, k))
            case None => Without(line, '\n') && (i + 1 == |Upserted(lines, keys, values)| ==> line != "")
  {
    if if i < |lines| then !SetHere(lines, keys, i) else i - |lines| < |Header| {
      OtherLine(lines, keys, values, i);
      key := None;
    } else {
      var k := if i < |lines| then KeyOf(lines[i]).value else Missing(lines, keys)[i - |lines| - |Header|];
      MissingKeys(lines, keys);
      assert i >= |lines| ==> k in Missing(lines, keys);
      SetLineIsWritten(lines, keys, values, i, k);
      key := Some(k);
    }
  }

  lemma LastIsEnding(lines: seq<string>, keys: seq<string>, values: map<string, string>)
    requires Proper(lines) && Upserted(lines, keys, values) != []
    ensures var up := Upserted(lines, keys, values); Ending(up[|up| - 1])
  {
    var up := Upserted(lines, keys, values);
    var key := LineOfUpserted(lines, keys, values, |up| - 1);
    if key.Some? {
      SetLine(key.value, Value(values, key.value));
    }
  }

  // ---------------------------------------------------------------------------------------------
  // When the second run writes the same
  // ---------------------------------------------------------------------------------------------

  /** The bytes that a run writes. */
  function Written(content: Option<string>, keys: seq<string>, values: map<string, string>): string {
    FileOf(Upserted(LinesOf(content), keys, values))
  }

  /** A second run with the same keys and values writes the same bytes. */
  predicate RunsRepeat(content: Option<string>, keys: seq<string>, values: map<string, string>) {
    Written(Some(Written(content, keys, values)), keys, values) == Written(content, keys, values)
  }

  /** The key is set in one line only, the last of the file. */
  predicate SetLast(lines: seq<string>, keys: seq<string>, key: string) {
    var missing := Missing(lines, keys);
    if missing == [] then
      lines != [] && SetHere(lines, keys, |lines| - 1) && KeyOf(lines[|lines| - 1]) == Some(key)
    else
      missing[|missing| - 1] == key && key !in missing[..|missing| - 1]
  }

  /** All listed keys are plain and on one line, and so are their values, except that the value of the key set in
      the last line may end in newlines. */
  predicate Repeatable(lines: seq<string>, keys: seq<string>, values: map<string, string>) {
    forall key | key in keys ::
      && Plain(key) && Without(key, '\n')
      && var value := Value(values, key);
         Without(value, '\n') || (SetLast(lines, keys, key) && Without(TrimNewlines(value), '\n'))
  }

  lemma SetLastIsLast(lines: seq<string>, keys: seq<string>, values: map<string, string>, key: string, i: nat)
    requires SetLast(lines, keys, key) && SetsLine(lines, keys, i, key)
    ensures i + 1 == |Upserted(lines, keys, values)|
  {
    var missing := Missing(lines, keys);
    MissingKeys(lines, keys);
    if missing != [] {
      assert key in missing;
      var n := |missing| - 1;
      forall j: nat | j < n ensures missing[j] != key {
        assert missing[j] == missing[..n][j];
      }
    }
  }

  lemma {:induction false} TrimNewlinesIsPrefix(s: string)
    ensures TrimNewlines(s) <= s
    ensures Without(s, '\n') ==> TrimNewlines(s) == s
  {
    if s != "" && s[|s| - 1] == '\n' {
      TrimNewlinesIsPrefix(s[..|s| - 1]);
    }
  }

  lemma RepeatableIsLined(lines: seq<string>, keys: seq<string>, values: map<string, string>)
    requires Proper(lines) && Repeatable(lines, keys, values) && Upserted(lines, keys, values) != []
    ensures Lined(Upserted(lines, keys, values))
  {
    var up := Upserted(lines, keys, values);
    forall i: nat | i < |up| ensures if i < |up| - 1 then Without(up[i], '\n') else Without(TrimNewlines(up[i]), '\n') {
      TrimNewlinesIsPrefix(up[i]);
      var key := LineOfUpserted(lines, keys, values, i);
      if key.Some? {
        var value := Value(values, key.value);
        SetLine(key.value, value);
        TrimNewlinesIsPrefix(value);
        if !Without(value, '\n') {
          SetLastIsLast(lines, keys, values, key.value, i);
        }
      }
    }
  }

  lemma UpsertedLength(lines: seq<string>, keys: seq<string>, values: map<string, string>)
    ensures var missing := Missing(lines, keys);
            |Upserted(lines, keys, values)| == |lines| + if missing == [] then 0 else |Header| + |missing|
  {
  }

  lemma AssignedIsSetLast(lines: seq<string>, keys: seq<string>, key: string, count: nat)
    requires Assigned(lines, key) && key in keys
    requires |lines| <= count && (Missing(lines, keys) == [] <==> |lines| == count)
    requires forall i: nat | SetsLine(lines, keys, i, key) :: i + 1 == count
    ensures SetLast(lines, keys, key)
  {
    var i := SomeFirst(lines, key);
    assert SetsLine(lines, keys, i, key);
  }

  lemma MissingIsSetLast(lines: seq<string>, keys: seq<string>, key: string)
    requires var missing := Missing(lines, keys);
             && key in missing
             && forall i: nat | SetsLine(lines, keys, i, key) :: i + 1 == |lines| + |Header| + |missing|
    ensures SetLast(lines, keys, key)
  {
    var missing := Missing(lines, keys);
    forall j: nat | j < |missing| && missing[j] == key ensures j + 1 == |missing| {
      assert SetsLine(lines, keys, |lines| + |Header| + j, key);
    }
    OnlyLast(missing, key);
  }

  /** A value with a newline is written in the last line only. */
  lemma LinedIsSetLast(lines: seq<string>, keys: seq<string>, values: map<string, string>, key: string)
    requires Upserted(lines, keys, values) != [] && Lined(Upserted(lines, keys, values))
    requires key in keys && !Without(Assignment(key, Value(values, key)), '\n')
    ensures SetLast(lines, keys, key)
  {
    var count := |Upserted(lines, keys, values)|;
    forall i: nat | SetsLine(lines, keys, i, key) ensures i + 1 == count {
      SetLineIsWritten(lines, keys, values, i, key);
    }
    UpsertedLength(lines, keys, values);
    MissingKeys(lines, keys);
    if Assigned(lines, key) {
      AssignedIsSetLast(lines, keys, key, count);
    } else {
      MissingIsSetLast(lines, keys, key);
    }
  }

  lemma OnlyLast(keys: seq<string>, key: string)
    requires key in keys && forall j: nat | j < |keys| && keys[j] == key :: j + 1 == |keys|
    ensures keys[|keys| - 1] == key && key !in keys[..|keys| - 1]
  {
  }

  lemma TrimmedLine(line: string)
    ensures KeyOf(TrimNewlines(line)) == KeyOf(line)
  {
    TrimSpaceOfTrimmed(line);
  }

  lemma {:induction false} TrimLeftEnd(s: string)
    ensures TrimLeft(s + "\n") == if TrimLeft(s) == "" then "" else TrimLeft(s) + "\n"
  {
    var whole := s + "\n";
    if s == "" {
      assert whole[0] == '\n' && whole[1..] == "";
    } else if IsSpace(s[0]) {
      assert whole[0] == s[0] && whole[1..] == s[1..] + "\n";
      TrimLeftEnd(s[1..]);
    } else {
      assert whole[0] == s[0];
    }
  }

  lemma {:induction false} TrimSpaceOfTrimmed(s: string)
    ensures TrimSpace(TrimNewlines(s)) == TrimSpace(s)
  {
    if s != "" && s[|s| - 1] == '\n' {
      var before := s[..|s| - 1];
      TrimSpaceOfTrimmed(before);
      assert s == before + "\n";
      TrimLeftEnd(before);
      var left := TrimLeft(before);
      assert (left + "\n")[..|left|] == left;
    }
  }

  lemma ReplacedDependsOnKeys(
      lines: seq<string>, up: seq<string>, keys: seq<string>, values: map<string, string>, i: nat)
    requires |lines| == |up| && i < |up| && forall j | 0 <= j < |up| :: KeyOf(lines[j]) == KeyOf(up[j])
    requires SetHere(up, keys, i) || lines[i] == up[i]
    ensures Replaced(lines, keys, values)[i] == Replaced(up, keys, values)[i]
  {
    assert SetHere(lines, keys, i) <==> SetHere(up, keys, i);
  }

  /** A second upsert restores the newlines at the end of the last line that reading back has removed. */
  lemma UpsertRestores(up: seq<string>, keys: seq<string>, values: map<string, string>)
    requires up != [] && forall key | key in keys :: IsSet(up, key, Value(values, key))
    requires !Without(up[|up| - 1], '\n') ==> SetHere(up, keys, |up| - 1)
    ensures Upserted(up[..|up| - 1] + [TrimNewlines(up[|up| - 1])], keys, values) == up
  {
    var n := |up| - 1;
    var lines := up[..n] + [TrimNewlines(up[n])];
    forall i | 0 <= i < |up| ensures KeyOf(lines[i]) == KeyOf(up[i]) && (i < n ==> lines[i] == up[i]) {
      TrimmedLine(up[n]);
    }
    forall key | key in keys ensures Assigned(lines, key) {
      var i: nat :| FirstAssigns(up, key, i) && up[i] == Assignment(key, Value(values, key));
      assert Assigns(lines[i], key);
    }
    NothingMissing(lines, keys);
    UpsertOfSetLines(up, keys, values);
    NothingMissing(up, keys);
    forall i: nat | i <= n ensures Replaced(lines, keys, values)[i] == Replaced(up, keys, values)[i] {
      TrimNewlinesIsPrefix(up[n]);
      ReplacedDependsOnKeys(lines, up, keys, values, i);
    }
  }

  lemma RepeatsWhenRepeatable(content: Option<string>, keys: seq<string>, values: map<string, string>)
    requires Repeatable(LinesOf(content), keys, values)
    ensures RunsRepeat(content, keys, values)
  {
    var lines := LinesOf(content);
    var up := Upserted(lines, keys, values);
    LinesReadAreProper(content);
    forall key | key in keys ensures IsSet(up, key, Value(values, key)) {
      FirstAssignmentIsSet(lines, keys, values, key);
    }
    if up == [] {
      NothingWritten(lines, keys, values);
    } else {
      var n := |up| - 1;
      LastIsEnding(lines, keys, values);
      RepeatableIsLined(lines, keys, values);
      ReadCount(up);
      if !Without(up[n], '\n') {
        var key := LineOfUpserted(lines, keys, values, n);
        assert IsSet(up, key.value, Value(values, key.value));
        var i: nat :| FirstAssigns(up, key.value, i) && up[i] == up[n];
        assert SetHere(up, keys, i);
      }
      UpsertRestores(up, keys, values);
    }
  }

  lemma {:induction false} AllMissing(keys: seq<string>)
    ensures Missing([], keys) == keys
  {
    if keys != [] {
      AllMissing(keys[..|keys| - 1]);
    }
  }

  lemma NothingWritten(lines: seq<string>, keys: seq<string>, values: map<string, string>)
    requires Upserted(lines, keys, values) == []
    ensures keys == [] && lines == [] && Upserted(Read([]), keys, values) == []
  {
    AllMissing(keys);
  }

  lemma KeyOnOneLine(line: string)
    requires Without(line, '\n') && KeyOf(line).Some?
    ensures Plain(KeyOf(line).value) && Without(KeyOf(line).value, '\n')
  {
    AssignedKeysArePlain(line);
    var stripped := TrimSpace(line);
    var before := Cut(stripped).value;
    CutIsPrefix(stripped);
    TrimmedWithout(line);
    TrimmedWithout(before);
  }

  lemma TrimmedWithout(s: string)
    requires Without(s, '\n')
    ensures Without(TrimSpace(s), '\n')
  {
    TrimLeftIsSuffix(s);
    TrimRightIsPrefix(TrimLeft(s));
  }

  lemma {:induction false} TrimBlankIsPrefix(lines: seq<string>)
    ensures TrimBlank(lines) <= lines
  {
    if lines != [] && lines[|lines| - 1] == "" {
      TrimBlankIsPrefix(lines[..|lines| - 1]);
    }
  }

  /** The first piece of a line with newlines at its end only. */
  lemma FirstPiece(line: string)
    requires Ending(line) && Without(TrimNewlines(line), '\n')
    ensures Split(line, '\n')[0] == TrimNewlines(line)
  {
    TrimBlankOfSplit(line);
    TrimBlankIsPrefix(Split(line, '\n'));
    OnePiece(TrimNewlines(line));
  }

  /** Every line but the last is read back before the last one. */
  lemma EarlierLineIsRead(up: seq<string>, i: nat, key: string)
    requires i < |up| - 1 && Ending(up[|up| - 1])
    requires Assigns(up[i], key) && Ending(up[i]) && Without(TrimNewlines(up[i]), '\n')
    ensures exists p | 0 <= p < |Read(up)| - 1 :: Assigns(Read(up)[p], key)
  {
    var before := up[..|up| - 1];
    ReadSplit(up);
    assert before[i] == up[i];
    PieceOfLine(before, i);
    FirstPiece(up[i]);
    TrimmedLine(up[i]);
    var p: nat :| p < |Pieces(before)| && Pieces(before)[p] == TrimNewlines(up[i]);
    assert Read(up)[p] == Pieces(before)[p];
  }

  /** What a second run that writes the same found in the file: every listed key assigned. */
  lemma RepeatingRunAddsNothing(again: seq<string>, count: nat)
    requires again != [] && Ending(again[|again| - 1]) && |Read(again)| == count <= |again|
    ensures |again| == count && Lined(again)
  {
    ReadCount(again);
  }

  lemma ReadIsProper(up: seq<string>)
    requires up != [] && Ending(up[|up| - 1])
    ensures Proper(Read(up)) && Read(up) != []
  {
    ReadCount(up);
    LinesReadAreProper(Some(FileOf(up)));
  }

  /** Nothing is missing, and what is written holds newlines in the last line only, at its end. */
  predicate Settled(lines: seq<string>, keys: seq<string>, values: map<string, string>) {
    var up := Upserted(lines, keys, values);
    Proper(lines) && Missing(lines, keys) == [] && up != [] && Lined(up)
  }

  lemma SetInLined(up: seq<string>, i: nat, key: string, value: string)
    requires i < |up| && Lined(up) && up[i] == Assignment(key, value) && Without(key, '\n')
    ensures Without(TrimNewlines(value), '\n') && (Without(value, '\n') || i + 1 == |up|)
  {
    SetLine(key, value);
    TrimNewlinesIsPrefix(value);
  }

  lemma FirstOfSettled(lines: seq<string>, keys: seq<string>, values: map<string, string>, key: string) returns (i: nat)
    requires Settled(lines, keys, values) && key in keys
    ensures Plain(key) && Without(key, '\n') && FirstAssigns(lines, key, i)
            && |Upserted(lines, keys, values)| == |lines|
    ensures Upserted(lines, keys, values)[i] == Assignment(key, Value(values, key))
  {
    NothingMissing(lines, keys);
    i := SomeFirst(lines, key);
    KeyOnOneLine(lines[i]);
    SetLineIsWritten(lines, keys, values, i, key);
    UpsertedLength(lines, keys, values);
  }

  /** Then every listed key is plain and on one line, and a value with a newline is that of the key that the last line
      is the first to assign. */
  lemma SetInPlace(lines: seq<string>, keys: seq<string>, values: map<string, string>, key: string)
    requires Settled(lines, keys, values) && key in keys
    ensures Plain(key) && Without(key, '\n') && Without(TrimNewlines(Value(values, key)), '\n')
    ensures Without(Value(values, key), '\n') || (lines != [] && FirstAssigns(lines, key, |lines| - 1))
  {
    var i := FirstOfSettled(lines, keys, values, key);
    SetInLined(Upserted(lines, keys, values), i, key, Value(values, key));
  }

  lemma RunCounts(lines: seq<string>, keys: seq<string>, values: map<string, string>)
    requires Proper(lines)
    ensures var again := Upserted(lines, keys, values);
            && |again| >= |lines| && (|again| == |lines| ==> Missing(lines, keys) == [])
            && (again != [] ==> Ending(again[|again| - 1]))
  {
    UpsertedLength(lines, keys, values);
    if Upserted(lines, keys, values) != [] {
      LastIsEnding(lines, keys, values);
    }
  }

  lemma RepeatingRun(up: seq<string>, keys: seq<string>, values: map<string, string>)
    requires up != [] && Ending(up[|up| - 1])
    requires Read(Upserted(Read(up), keys, values)) == Read(up)
    ensures Settled(Read(up), keys, values)
  {
    ReadIsProper(up);
    RunCounts(Read(up), keys, values);
    RepeatingRunAddsNothing(Upserted(Read(up), keys, values), |Read(up)|);
  }

  /** The line in which the first run sets a key holds newlines at its end at most, and none before the last line. */
  lemma SetLineIsLined(up: seq<string>, read: seq<string>, i: nat, key: string, value: string)
    requires i < |up| && Ending(up[|up| - 1]) && up[i] == Assignment(key, value) && read == Read(up)
    requires Plain(key) && Without(key, '\n') && Without(TrimNewlines(value), '\n')
    requires Without(value, '\n') || (read != [] && FirstAssigns(read, key, |read| - 1))
    ensures if i < |up| - 1 then Without(up[i], '\n') else Without(TrimNewlines(up[i]), '\n')
  {
    SetLine(key, value);
    ReadsBackExactlyWhenPlain(key, value);
    if i < |up| - 1 && !Without(value, '\n') {
      EarlierLineIsRead(up, i, key);
    }
  }

  lemma RepeatingRunLine(
      lines: seq<string>, up: seq<string>, read: seq<string>, keys: seq<string>, values: map<string, string>, i: nat)
    requires Proper(lines) && up == Upserted(lines, keys, values) && i < |up| && Ending(up[|up| - 1])
    requires read == Read(up) && Settled(read, keys, values)
    ensures if i < |up| - 1 then Without(up[i], '\n') else Without(TrimNewlines(up[i]), '\n')
  {
    var key := LineOfUpserted(lines, keys, values, i);
    if key.Some? {
      SetInPlace(read, keys, values, key.value);
      SetLineIsLined(up, read, i, key.value, Value(values, key.value));
    } else {
      TrimNewlinesIsPrefix(up[i]);
    }
  }

  lemma RepeatingRunIsLined(lines: seq<string>, up: seq<string>, keys: seq<string>, values: map<string, string>)
    requires Proper(lines) && up == Upserted(lines, keys, values) && up != [] && Ending(up[|up| - 1])
    requires Settled(Read(up), keys, values)
    ensures Lined(up)
  {
    forall i: nat | i < |up| ensures if i < |up| - 1 then Without(up[i], '\n') else Without(TrimNewlines(up[i]), '\n') {
      RepeatingRunLine(lines, up, Read(up), keys, values, i);
    }
  }

  lemma RepeatableKey(lines: seq<string>, keys: seq<string>, values: map<string, string>, key: string)
    requires key in keys && Plain(key) && Without(key, '\n')
    requires Upserted(lines, keys, values) != [] && Lined(Upserted(lines, keys, values))
    ensures Without(Value(values, key), '\n') || SetLast(lines, keys, key)
  {
    if !Without(Value(values, key), '\n') {
      SetLine(key, Value(values, key));
      LinedIsSetLast(lines, keys, values, key);
    }
  }

  lemma RepeatsOnlyWhenRepeatable(content: Option<string>, keys: seq<string>, values: map<string, string>)
    requires RunsRepeat(content, keys, values)
    ensures Repeatable(LinesOf(content), keys, values)
  {
    var lines := LinesOf(content);
    var up := Upserted(lines, keys, values);
    LinesReadAreProper(content);
    if up == [] {
      NothingWritten(lines, keys, values);
    } else {
      LastIsEnding(lines, keys, values);
      RepeatingRun(up, keys, values);
      RepeatingRunIsLined(lines, up, keys, values);
      forall key | key in keys
        ensures Plain(key) && Without(key, '\n') && Without(TrimNewlines(Value(values, key)), '\n')
        ensures Without(Value(values, key), '\n') || SetLast(lines, keys, key)
      {
        SetInPlace(Read(up), keys, values, key);
        RepeatableKey(lines, keys, values, key);
      }
    }
  }

  /** A second run with the same keys and values writes the same bytes exactly when all listed keys are plain and on
      one line and so are their values, but for newlines at the end of a value that only the last line sets. */
  lemma RunsRepeatExactlyWhen(content: Option<string>, keys: seq<string>, values: map<string, string>)
    ensures RunsRepeat(content, keys, values) <==> Repeatable(LinesOf(content), keys, values)
  {
    if Repeatable(LinesOf(content), keys, values) {
      RepeatsWhenRepeatable(content, keys, values);
    } else if RunsRepeat(content, keys, values) {
      RepeatsOnlyWhenRepeatable(content, keys, values);
    }
  }

  /** Keys and values that fit on a line. */
  predicate OnOneLine(keys: seq<string>, values: map<string, string>) {
    forall key | key in keys :: Without(key, '\n') && Without(Value(values, key), '\n')
  }

  /** For keys and values on one line, exactly when the keys are plain; one that is not is added again by every run. */
  lemma SecondRunWritesTheSame(content: Option<string>, keys: seq<string>, values: map<string, string>)
    requires OnOneLine(keys, values)
    ensures RunsRepeat(content, keys, values) <==> AllPlain(keys)
  {
    RunsRepeatExactlyWhen(content, keys, values);
  }

  lemma TwoLinesRead(header: seq<string>, line: string, next: string)
    requires AllOnOneLine(header) && Without(line, '\n') && Without(next, '\n') && next != ""
    ensures Read(header + [line + "\n" + next]) == header + [line] + [next]
  {
    var whole := line + "\n" + next;
    var up := header + [whole];
    assert whole[|whole| - 1] == next[|next| - 1] && TrimNewlines(whole) == whole;
    assert up[..|header|] == header && up[|header|] == whole;
    ReadSplit(up);
    PieceCount(header);
    SplitAtSeparator(line, next, '\n');
    SplitWithout(next, '\n');
  }

  lemma OnlyFirstIsSet(header: seq<string>, line: string, rest: seq<string>, key: string, values: map<string, string>)
    requires !Assigned(header, key) && Assigns(line, key)
    ensures Upserted(header + [line] + rest, [key], values) == header + [Assignment(key, Value(values, key))] + rest
  {
    var lines, keys := header + [line] + rest, [key];
    var n := |header|;
    forall j | 0 <= j < n ensures lines[j] == header[j] && !Assigns(lines[j], key) {
    }
    assert lines[n] == line;
    NothingMissing(lines, keys);
    assert Replaced(lines, keys, values) == header + [Assignment(key, Value(values, key))] + rest;
  }

  lemma OnlyKeyIsAdded(key: string, values: map<string, string>)
    ensures Upserted([], [key], values) == Header + [Assignment(key, Value(values, key))]
  {
    AllMissing([key]);
    assert Assignments([key], values) == [Assignment(key, Value(values, key))];
  }

  lemma TwoLinesEnd(line: string, next: string)
    requires next != "" && Without(next, '\n')
    ensures !Without(TrimNewlines(line + "\n" + next), '\n')
  {
    var value := line + "\n" + next;
    assert value[|line|] == '\n' && value[|value| - 1] == next[|next| - 1];
  }

  /** A value of two lines is read back as two lines, and each run adds its second line again. */
  lemma ValueOfTwoLinesIsWrittenAgain(key: string, line: string, next: string, value: string)
    requires Plain(key) && Without(key, '\n') && Without(line, '\n') && Without(next, '\n') && next != ""
    requires value == line + "\n" + next
    ensures Upserted([], [key], map[key := value]) == Header + [Assignment(key, value)]
    ensures Read(Header + [Assignment(key, value)]) == Header + [Assignment(key, line)] + [next]
    ensures Upserted(Header + [Assignment(key, line)] + [next], [key], map[key := value])
            == Header + [Assignment(key, value)] + [next]
    ensures !RunsRepeat(None, [key], map[key := value])
  {
    var values, first := map[key := value], Assignment(key, line);
    OnlyKeyIsAdded(key, values);
    WithoutAssignment(key, line);
    HeaderOnOneLine();
    assert first + "\n" + next == Assignment(key, value);
    TwoLinesRead(Header, first, next);
    ReadsBackExactlyWhenPlain(key, line);
    HeaderAssignsNothing();
    OnlyFirstIsSet(Header, first, [next], key, values);
    TwoLinesDoNotRepeat(key, line, next, value);
  }

  lemma TwoLinesDoNotRepeat(key: string, line: string, next: string, value: string)
    requires next != "" && Without(next, '\n') && value == line + "\n" + next
    ensures !RunsRepeat(None, [key], map[key := value])
  {
    TwoLinesEnd(line, next);
    assert key in [key] && Value(map[key := value], key) == value;
    RunsRepeatExactlyWhen(None, [key], map[key := value]);
  }
}
