/**
 * The body of the `read-proc-file` handler: the `Key: Value` text of
 * /proc/avionics_status becomes a string-to-string dictionary.
 */
module StatusParser {
  import opened Wrappers
  import opened JsString

  /**
   * Assigning a string to `obj["__proto__"]` on a plain JavaScript object goes
   * to the prototype setter, which ignores values that are not objects: a line
   * with this key adds no entry.
   */
  const ProtoKey := "__proto__"

  /** The key and value a status line yields; a line without ':' yields nothing. */
  function LineEntry(line: string): (e: Option<(string, string)>)
    ensures e.None? <==> ':' !in line
  {
    if ':' !in line then None
    else
      var parts := Split(line, ':');
      Some((Trim(parts[0]), Trim(Join(parts[1..], ':'))))
  }

  predicate KeyedBy(line: string, key: string) {
    LineEntry(line).Some? && LineEntry(line).value.0 == key
  }

  /** The dictionary after `line` has been processed. */
  function Store(procData: map<string, string>, line: string): map<string, string>
  {
    match LineEntry(line)
    case None => procData
    case Some((key, value)) => if key == ProtoKey then procData else procData[key := value]
  }

  /**
   * A line changes only the entry under its own key, sets that entry to the line's value
   * unless the key is `__proto__`, and never adds `__proto__`.
   */
  lemma StoreEffect(procData: map<string, string>, line: string)
    ensures var r := Store(procData, line);
            && (forall k :: k in procData && !KeyedBy(line, k) ==> k in r && r[k] == procData[k])
            && (forall k :: k in r && k !in procData ==> KeyedBy(line, k) && k != ProtoKey)
            && (LineEntry(line).Some? && LineEntry(line).value.0 != ProtoKey ==>
                  LineEntry(line).value.0 in r && r[LineEntry(line).value.0] == LineEntry(line).value.1)
  {
  }

  /** The dictionary built from `lines`, processed first to last. */
  function ParseLines(lines: seq<string>): (procData: map<string, string>)
    ensures ProtoKey !in procData
  {
    if lines == [] then map[] else Store(ParseLines(lines[..|lines| - 1]), lines[|lines| - 1])
  }

  /** The dictionary the handler returns for the text `data`. */
  function StatusMap(data: string): (procData: map<string, string>)
    ensures ProtoKey !in procData
  {
    ParseLines(Split(data, '\n'))
  }

  /** The parsing loop; it has no precondition, so every text yields a dictionary. */
  method ParseStatusText(data: string) returns (procData: map<string, string>)
    ensures procData == StatusMap(data)
  {
    var lines := Split(data, '\n');
    procData := map[];
    for i := 0 to |lines|
      invariant procData == ParseLines(lines[..i])
    {
      var line := lines[i];
      assert lines[..i + 1][..i] == lines[..i];
      assert ParseLines(lines[..i + 1]) == Store(procData, line);
      if ':' in line {
        var parts := Split(line, ':');
        var key := Trim(parts[0]);
        var value := Trim(Join(parts[1..], ':'));
        assert LineEntry(line) == Some((key, value));
        if key != ProtoKey {
          procData := procData[key := value];
        }
      }
    }
    assert lines[..|lines|] == lines;
  }

  /** The key is the trimmed text before the first ':', the value the trimmed rest, later colons included. */
  lemma LineEntryAtFirstColon(line: string)
    requires ':' in line
    ensures var i := FirstIndex(line, ':');
            LineEntry(line) == Some((Trim(line[..i]), Trim(line[i + 1..])))
  {
    var i := FirstIndex(line, ':');
    SplitAt(line, ':', i);
    var parts := Split(line, ':');
    assert parts[0] == line[..i];
    assert parts[1..] == Split(line[i + 1..], ':');
    JoinSplit(line[i + 1..], ':');
    assert Join(parts[1..], ':') == line[i + 1..];
  }

  lemma ColonInValueExample()
    ensures LineEntry("T: a:b") == Some(("T", "a:b"))
  {
    var line := "T: a:b";
    assert line[1] == ':' && line[0] != ':';
    assert FirstIndex(line, ':') == 1;
    LineEntryAtFirstColon(line);
    assert line[..1] == "T" && line[2..] == " a:b";
    TrimIdentity("T");
    TrimPadded(" ", "a:b", "");
    assert " " + "a:b" + "" == " a:b";
  }

  /** A key is in the dictionary iff some line carries it (and it is not the prototype key). */
  lemma {:induction false} ParsedKeys(lines: seq<string>, key: string)
    ensures key in ParseLines(lines) <==>
            key != ProtoKey && exists j :: 0 <= j < |lines| && KeyedBy(lines[j], key)
  {
    if lines != [] {
      var n := |lines|;
      var init := lines[..n - 1];
      var last := lines[n - 1];
      ParsedKeys(init, key);
      var before := ParseLines(init);
      assert ParseLines(lines) == Store(before, last);
      if key in ParseLines(lines) && !(KeyedBy(last, key) && key != ProtoKey) {
        assert key in before;
        var j :| 0 <= j < |init| && KeyedBy(init[j], key);
        assert lines[j] == init[j];
      }
      if key != ProtoKey && exists j :: 0 <= j < |lines| && KeyedBy(lines[j], key) {
        var j :| 0 <= j < |lines| && KeyedBy(lines[j], key);
        if j < n - 1 {
          assert init[j] == lines[j];
          assert key in before;
        } else {
          assert LineEntry(last).Some? && LineEntry(last).value.0 == key;
        }
      }
    }
  }

  /** When a key occurs on several lines, the value from the last of them wins. */
  lemma {:induction false} LastLineWins(lines: seq<string>, j: nat, key: string, value: string)
    requires j < |lines| && LineEntry(lines[j]) == Some((key, value)) && key != ProtoKey
    requires forall k :: j < k < |lines| ==> !KeyedBy(lines[k], key)
    ensures key in ParseLines(lines) && ParseLines(lines)[key] == value
  {
    var n := |lines|;
    var init := lines[..n - 1];
    if j < n - 1 {
      forall k | j < k < |init| ensures !KeyedBy(init[k], key) {
        assert init[k] == lines[k];
      }
      assert init[j] == lines[j];
      LastLineWins(init, j, key, value);
      assert !KeyedBy(lines[n - 1], key);
    }
  }

  /** The number of lines that contain a colon. */
  function ColonLines(lines: seq<string>): nat
  {
    if lines == [] then 0
    else ColonLines(lines[..|lines| - 1]) + (if ':' in lines[|lines| - 1] then 1 else 0)
  }

  /** Only lines with a colon contribute, and each at most one entry. */
  lemma {:induction false} EntryCountBound(lines: seq<string>)
    ensures |ParseLines(lines)| <= ColonLines(lines)
  {
    if lines != [] {
      EntryCountBound(lines[..|lines| - 1]);
    }
  }

  /** A key that the round trip can carry: no colon, no line break, no edge whitespace. */
  predicate WellFormedKey(k: string) {
    ':' !in k && '\n' !in k && IsTrimmed(k) && k != ProtoKey
  }

  predicate WellFormedValue(v: string) {
    '\n' !in v && IsTrimmed(v)
  }

  /** The lines `K: V` for the given keys and values, in order. */
  function StatusLines(keys: seq<string>, values: seq<string>): (lines: seq<string>)
    requires |keys| == |values|
    ensures |lines| == |keys|
  {
    seq(|keys|, i requires 0 <= i < |keys| => keys[i] + ": " + values[i])
  }

  /** The text of the given entries, one `K: V` line each. */
  function StatusText(keys: seq<string>, values: seq<string>): string
    requires |keys| == |values|
  {
    Join(StatusLines(keys, values), '\n')
  }

  lemma StatusLineEntry(k: string, v: string)
    requires WellFormedKey(k) && WellFormedValue(v)
    ensures LineEntry(k + ": " + v) == Some((k, v))
  {
    var line := k + ": " + v;
    assert line[|k|] == ':' && line[..|k|] == k;
    assert FirstIndex(line, ':') == |k|;
    LineEntryAtFirstColon(line);
    assert line[|k| + 1..] == " " + v + "";
    TrimIdentity(k);
    TrimPadded(" ", v, "");
  }

  /** The lines of a status text are the `K: V` lines it was written from. */
  lemma StatusTextLines(keys: seq<string>, values: seq<string>)
    requires |keys| == |values|
    requires forall i :: 0 <= i < |keys| ==> WellFormedKey(keys[i]) && WellFormedValue(values[i])
    ensures var parsed := Split(StatusText(keys, values), '\n');
            && |parsed| == (if keys == [] then 1 else |keys|)
            && (keys == [] ==> parsed == [[]])
            && forall i :: 0 <= i < |keys| ==> LineEntry(parsed[i]) == Some((keys[i], values[i]))
  {
    var lines := StatusLines(keys, values);
    forall i | 0 <= i < |keys| ensures LineEntry(lines[i]) == Some((keys[i], values[i])) {
      StatusLineEntry(keys[i], values[i]);
    }
    if keys != [] {
      forall i | 0 <= i < |lines| ensures '\n' !in lines[i] {
        assert lines[i] == keys[i] + ": " + values[i];
      }
      SplitJoin(lines, '\n');
    }
  }

  /** Writing distinct entries as `K: V` lines and parsing the text gives back exactly those entries. */
  lemma RoundTrip(keys: seq<string>, values: seq<string>)
    requires |keys| == |values|
    requires forall i :: 0 <= i < |keys| ==> WellFormedKey(keys[i]) && WellFormedValue(values[i])
    requires forall i, j :: 0 <= i < j < |keys| ==> keys[i] != keys[j]
    ensures StatusMap(StatusText(keys, values)).Keys == set k | k in keys
    ensures forall i :: 0 <= i < |keys| ==> StatusMap(StatusText(keys, values))[keys[i]] == values[i]
  {
    var parsed := Split(StatusText(keys, values), '\n');
    StatusTextLines(keys, values);
    ParsedEntries(parsed, keys, values);
    assert StatusMap(StatusText(keys, values)) == ParseLines(parsed);
  }

  /** Lines that carry distinct keys, one entry each, are parsed to exactly those entries. */
  lemma ParsedEntries(parsed: seq<string>, keys: seq<string>, values: seq<string>)
    requires |keys| == |values|
    requires forall i :: 0 <= i < |keys| ==> keys[i] != ProtoKey
    requires forall i, j :: 0 <= i < j < |keys| ==> keys[i] != keys[j]
    requires |parsed| == (if keys == [] then 1 else |keys|) && (keys == [] ==> parsed == [[]])
    requires forall i :: 0 <= i < |keys| ==> LineEntry(parsed[i]) == Some((keys[i], values[i]))
    ensures ParseLines(parsed).Keys == set k | k in keys
    ensures forall i :: 0 <= i < |keys| ==> ParseLines(parsed)[keys[i]] == values[i]
  {
    var m := ParseLines(parsed);
    forall k | k in m ensures k in keys {
      ParsedKeys(parsed, k);
      var j :| 0 <= j < |parsed| && KeyedBy(parsed[j], k);
      if keys == [] {
        assert false;
      }
      assert k == keys[j];
    }
    forall i | 0 <= i < |keys| ensures keys[i] in m && m[keys[i]] == values[i] {
      forall j | i < j < |parsed| ensures !KeyedBy(parsed[j], keys[i]) {
        assert LineEntry(parsed[j]).value.0 == keys[j];
      }
      LastLineWins(parsed, i, keys[i], values[i]);
    }
  }

  lemma {:induction false} SplitTrailingSeparator(s: string, sep: char)
    ensures Split(s + [sep], sep) == Split(s, sep) + [[]]
  {
    if s == [] {
      assert Split([sep], sep) == [[]] + Split([], sep);
    } else {
      assert (s + [sep])[1..] == s[1..] + [sep];
      SplitTrailingSeparator(s[1..], sep);
    }
  }

  /** A final line break adds an empty line, which contributes nothing. */
  lemma TrailingNewline(data: string)
    ensures StatusMap(data + "\n") == StatusMap(data)
  {
    SplitTrailingSeparator(data, '\n');
    var lines := Split(data, '\n');
    assert (lines + [[]])[..|lines|] == lines;
  }

  /** A sample status text: the three keys present, every other one absent. */
  lemma SampleStatus(text: string)
    requires text == "TaskName: sim\nPeriodMS: 10\nMissedCount: 0\n"
    ensures StatusMap(text) == map["TaskName" := "sim", "PeriodMS" := "10", "MissedCount" := "0"]
  {
    SampleStatusFrom(text, ["TaskName", "PeriodMS", "MissedCount"], ["sim", "10", "0"]);
  }

  lemma SampleStatusFrom(text: string, keys: seq<string>, values: seq<string>)
    requires text == "TaskName: sim\nPeriodMS: 10\nMissedCount: 0\n"
    requires keys == ["TaskName", "PeriodMS", "MissedCount"] && values == ["sim", "10", "0"]
    ensures StatusMap(text) == map["TaskName" := "sim", "PeriodMS" := "10", "MissedCount" := "0"]
  {
    SampleEntries(keys, values);
    SampleText(text, keys, values);
    var body := StatusText(keys, values);
    RoundTrip(keys, values);
    TrailingNewline(body);
    var m := StatusMap(body);
    assert m.Keys == {keys[0], keys[1], keys[2]} by {
      assert (set k | k in keys) == {keys[0], keys[1], keys[2]};
    }
    assert m[keys[0]] == values[0] && m[keys[1]] == values[1] && m[keys[2]] == values[2];
  }

  lemma SampleEntries(keys: seq<string>, values: seq<string>)
    requires keys == ["TaskName", "PeriodMS", "MissedCount"] && values == ["sim", "10", "0"]
    ensures forall i :: 0 <= i < |keys| ==> WellFormedKey(keys[i]) && WellFormedValue(values[i])
    ensures forall i, j :: 0 <= i < j < |keys| ==> keys[i] != keys[j]
  {
    assert WellFormedKey(keys[0]) && WellFormedKey(keys[1]) && WellFormedKey(keys[2]);
    assert WellFormedValue(values[0]) && WellFormedValue(values[1]) && WellFormedValue(values[2]);
  }

  lemma SampleText(text: string, keys: seq<string>, values: seq<string>)
    requires text == "TaskName: sim\nPeriodMS: 10\nMissedCount: 0\n"
    requires keys == ["TaskName", "PeriodMS", "MissedCount"] && values == ["sim", "10", "0"]
    ensures StatusText(keys, values) + "\n" == text
  {
    SampleLines(keys, values);
    JoinThree("TaskName: sim", "PeriodMS: 10", "MissedCount: 0", '\n');
    assert text == "TaskName: sim" + "\n" + "PeriodMS: 10" + "\n" + "MissedCount: 0" + "\n";
  }

  lemma SampleLines(keys: seq<string>, values: seq<string>)
    requires keys == ["TaskName", "PeriodMS", "MissedCount"] && values == ["sim", "10", "0"]
    ensures StatusLines(keys, values) == ["TaskName: sim", "PeriodMS: 10", "MissedCount: 0"]
  {
    var lines := StatusLines(keys, values);
    assert lines[0] == "TaskName: sim" && lines[1] == "PeriodMS: 10" && lines[2] == "MissedCount: 0";
  }

  lemma JoinThree(a: string, b: string, c: string, sep: char)
    ensures Join([a, b, c], sep) == a + [sep] + b + [sep] + c
  {
    assert [a, b, c][1..] == [b, c] && [b, c][1..] == [c];
    assert Join([c], sep) == c;
    assert Join([b, c], sep) == b + [sep] + c;
  }
}
