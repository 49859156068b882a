/**
 * The pure rules of the renderer's `updateStatusDisplay`: which rows are
 * shown and in what order, how a key becomes a caption, which style classes a
 * value gets, and when an empty input field is filled from the status.
 */
module StatusDisplay {
  import opened Wrappers
  import opened JsString

  /** The display order; keys outside it are never shown. */
  const KeyOrder: seq<string> := [
    "TaskName", "ModuleStatus", "TaskStatus", "PeriodMS", "DeadlineMS", "CurrentWorkloadMS",
    "LastExecTimeMS", "LastDeadlineResult", "MetCount", "MissedCount"
  ]

  predicate Distinct(keys: seq<string>) {
    forall i, j :: 0 <= i < j < |keys| ==> keys[i] != keys[j]
  }

  lemma KeyOrderDistinct()
    ensures Distinct(KeyOrder)
  {
  }

  // ---------------------------------------------------------------- labels

  /** `[A-Z]` */
  predicate IsAsciiUpper(c: char) {
    'A' <= c <= 'Z'
  }

  /** The characters `.` does not match. */
  predicate IsLineTerminator(c: char) {
    c == '\n' || c == '\r' || c == '\U{2028}' || c == '\U{2029}'
  }

  /** `key.replace(/([A-Z])/g, ' $1')` */
  function SpaceBeforeCapitals(key: string): (spaced: string)
    ensures spaced == [] || !IsAsciiUpper(spaced[0])
  {
    if key == [] then []
    else if IsAsciiUpper(key[0]) then [' ', key[0]] + SpaceBeforeCapitals(key[1..])
    else [key[0]] + SpaceBeforeCapitals(key[1..])
  }

  /** `toUpperCase` on one character, for the ASCII letters. */
  function ToUpperAscii(c: char): char {
    if 'a' <= c <= 'z' then (c as int - 32) as char else c
  }

  /** `s.replace(/^./, str => str.toUpperCase())` */
  function UpperFirst(s: string): string {
    if s != [] && !IsLineTerminator(s[0]) then [ToUpperAscii(s[0])] + s[1..] else s
  }

  /** The text of a row's key cell. */
  function FormatLabel(key: string): string {
    UpperFirst(SpaceBeforeCapitals(key)) + ":"
  }

  /** Removes every space that stands right before a capital letter. */
  function DropSpacesBeforeCapitals(s: string): string
  {
    if s == [] then []
    else if |s| >= 2 && s[0] == ' ' && IsAsciiUpper(s[1]) then DropSpacesBeforeCapitals(s[1..])
    else [s[0]] + DropSpacesBeforeCapitals(s[1..])
  }

  /** Dropping the spaces before capitals undoes the insertion, whatever the key. */
  lemma {:induction false} DropUndoesSpacing(key: string)
    ensures DropSpacesBeforeCapitals(SpaceBeforeCapitals(key)) == key
  {
    if key != [] {
      var rest := SpaceBeforeCapitals(key[1..]);
      DropUndoesSpacing(key[1..]);
      if IsAsciiUpper(key[0]) {
        var s := [' ', key[0]] + rest;
        assert s[1..] == [key[0]] + rest;
        assert ([key[0]] + rest)[1..] == rest;
      } else {
        var s := [key[0]] + rest;
        assert s[1..] == rest;
      }
      assert [key[0]] + key[1..] == key;
    }
  }

  /**
   * A caption ends with ':', and removing the colon and the inserted spaces gives
   * back the key, with its first letter in upper case.
   */
  lemma FormatLabelRecoversKey(key: string)
    ensures var caption := FormatLabel(key);
            && |caption| > 0 && caption[|caption| - 1] == ':'
            && DropSpacesBeforeCapitals(caption[..|caption| - 1]) == UpperFirst(key)
  {
    var spaced := SpaceBeforeCapitals(key);
    DropUndoesSpacing(key);
    var caption := FormatLabel(key);
    assert caption[..|caption| - 1] == UpperFirst(spaced);
    if key != [] && !IsLineTerminator(key[0]) {
      var rest := SpaceBeforeCapitals(key[1..]);
      DropUndoesSpacing(key[1..]);
      if IsAsciiUpper(key[0]) {
        assert UpperFirst(spaced) == spaced;
        assert UpperFirst(key) == key;
      } else {
        var u := ToUpperAscii(key[0]);
        assert UpperFirst(spaced) == [u] + rest;
        assert ([u] + rest)[1..] == rest;
        if |[u] + rest| >= 2 && u == ' ' {
          assert ([u] + rest)[1] == rest[0];
        }
        assert DropSpacesBeforeCapitals([u] + rest) == [u] + key[1..];
      }
    }
  }

  /** For the displayed keys, which all start with a capital, the key itself comes back. */
  lemma DisplayedLabelsRecoverKeys(key: string)
    requires key in KeyOrder
    ensures var caption := FormatLabel(key);
            DropSpacesBeforeCapitals(caption[..|caption| - 1]) == key
  {
    KeyOrderCapitalised();
    CapitalisedLabelRecoversKey(key);
  }

  /** A key that starts with a capital comes back from its label unchanged. */
  lemma CapitalisedLabelRecoversKey(key: string)
    requires key != [] && IsAsciiUpper(key[0])
    ensures var caption := FormatLabel(key);
            DropSpacesBeforeCapitals(caption[..|caption| - 1]) == key
  {
    FormatLabelRecoversKey(key);
    assert UpperFirst(key) == key;
  }

  /** Every displayed key starts with a capital letter. */
  lemma KeyOrderCapitalised()
    ensures forall i :: 0 <= i < |KeyOrder| ==> KeyOrder[i] != [] && IsAsciiUpper(KeyOrder[i][0])
  {
  }

  lemma TaskNameLabel()
    ensures FormatLabel("TaskName") == " Task Name:"
  {
    assert SpaceBeforeCapitals("Name") == " Name";
    assert SpaceBeforeCapitals("TaskName") == " Task Name";
  }

  // --------------------------------------------------------------- classes

  /**
   * The classes of a row's value cell: always `data-value`, plus `met`,
   * `missed`, `executing` or `missed-count-non-zero` by the rules below.
   */
  function ValueClasses(key: string, value: string): (classes: seq<string>)
    ensures |classes| >= 1 && classes[0] == "data-value"
    ensures "met" in classes <==> key == "LastDeadlineResult" && value == "MET"
    ensures "missed" in classes <==> key == "LastDeadlineResult" && value == "MISSED"
    ensures "executing" in classes <==> key == "TaskStatus" && value == "EXECUTING"
    ensures "missed-count-non-zero" in classes <==> key == "MissedCount" && value != "0"
    ensures key !in {"LastDeadlineResult", "TaskStatus", "MissedCount"} ==> classes == ["data-value"]
    ensures |classes| <= 2
  {
    ["data-value"]
    + if key == "LastDeadlineResult" then
        (if value == "MET" then ["met"] else if value == "MISSED" then ["missed"] else [])
      else if key == "TaskStatus" then
        (if value == "EXECUTING" then ["executing"] else [])
      else if key == "MissedCount" then
        (if value != "0" then ["missed-count-non-zero"] else [])
      else []
  }

  // ------------------------------------------------------------------ rows

  /** A displayed entry: the key cell's text, the value cell's text and its classes. */
  datatype Row = Row(keyText: string, valueText: string, valueClasses: seq<string>)

  function RowFor(key: string, value: string): Row {
    Row(FormatLabel(key), value, ValueClasses(key, value))
  }

  /** The keys of `keys` that `data` has, in the order of `keys`. */
  function PresentKeys(data: map<string, string>, keys: seq<string>): (present: seq<string>)
    ensures |present| <= |keys|
    ensures forall k :: k in present ==> k in keys && k in data
  {
    if keys == [] then []
    else
      var init := PresentKeys(data, keys[..|keys| - 1]);
      if keys[|keys| - 1] in data then init + [keys[|keys| - 1]] else init
  }

  /** The rows shown for `data` when `keys` are visited in order. */
  function RowsFor(data: map<string, string>, keys: seq<string>): seq<Row>
  {
    if keys == [] then []
    else
      var init := RowsFor(data, keys[..|keys| - 1]);
      var key := keys[|keys| - 1];
      if key in data then init + [RowFor(key, data[key])] else init
  }

  /** Visiting one more key adds its row when `data` has it. */
  lemma RowsForStep(data: map<string, string>, keys: seq<string>, i: nat)
    requires i < |keys|
    ensures RowsFor(data, keys[..i + 1])
            == RowsFor(data, keys[..i]) + (if keys[i] in data then [RowFor(keys[i], data[keys[i]])] else [])
  {
    assert keys[..i + 1][..i] == keys[..i];
  }

  /** One row per present key, in that order, showing the value unchanged. */
  lemma {:induction false} RowsFollowPresentKeys(data: map<string, string>, keys: seq<string>)
    ensures var present := PresentKeys(data, keys);
            && |RowsFor(data, keys)| == |present|
            && forall i :: 0 <= i < |present| ==>
                 present[i] in data && RowsFor(data, keys)[i] == RowFor(present[i], data[present[i]])
  {
    if keys != [] {
      RowsFollowPresentKeys(data, keys[..|keys| - 1]);
    }
  }

  /** Exactly the keys of `keys` that `data` has are present. */
  lemma {:induction false} PresentKeysExactly(data: map<string, string>, keys: seq<string>, key: string)
    ensures key in PresentKeys(data, keys) <==> key in keys && key in data
  {
    if keys != [] {
      var init := keys[..|keys| - 1];
      PresentKeysExactly(data, init, key);
      assert keys == init + [keys[|keys| - 1]];
    }
  }

  /** Every key of `sub` occurs in `keys`, and they occur there in the same order. */
  predicate InOrderOf(sub: seq<string>, keys: seq<string>) {
    forall i, j :: 0 <= i < j < |sub| ==>
      sub[i] in keys && sub[j] in keys && FirstIndex(keys, sub[i]) < FirstIndex(keys, sub[j])
  }

  /** Present keys appear in the order of `keys`. */
  lemma {:induction false} PresentKeysInOrder(data: map<string, string>, keys: seq<string>)
    requires Distinct(keys)
    ensures InOrderOf(PresentKeys(data, keys), keys)
  {
    if keys != [] {
      var n := |keys|;
      var init := keys[..n - 1];
      PresentKeysInOrder(data, init);
      var p0 := PresentKeys(data, init);
      var present := PresentKeys(data, keys);
      assert present == if keys[n - 1] in data then p0 + [keys[n - 1]] else p0;
      forall k | k in init ensures FirstIndex(keys, k) == FirstIndex(init, k) {
        var i := FirstIndex(init, k);
        assert keys[..i] == init[..i];
      }
      forall k | k in p0 ensures k in init {
        PresentKeysExactly(data, init, k);
      }
      forall i, j | 0 <= i < j < |present|
        ensures present[i] in keys && present[j] in keys && FirstIndex(keys, present[i]) < FirstIndex(keys, present[j])
      {
        assert present[i] == p0[i];
        assert present[i] in init;
        if j < |p0| {
          assert present[j] == p0[j];
          assert p0[j] in init;
          assert FirstIndex(init, p0[i]) < FirstIndex(init, p0[j]);
        } else {
          assert present[j] == keys[n - 1];
          assert keys[n - 1] !in init;
          assert FirstIndex(keys, present[j]) == n - 1;
        }
      }
    }
  }

  /** With distinct keys, the number of rows is the number of keys `data` has. */
  lemma {:induction false} PresentKeyCount(data: map<string, string>, keys: seq<string>)
    requires Distinct(keys)
    ensures |PresentKeys(data, keys)| == |set k | k in keys && k in data|
  {
    if keys == [] {
      assert (set k | k in keys && k in data) == {};
    } else {
      var n := |keys|;
      var init := keys[..n - 1];
      var last := keys[n - 1];
      PresentKeyCount(data, init);
      var before := set k | k in init && k in data;
      var after := set k | k in keys && k in data;
      assert keys == init + [last];
      if last in data {
        assert after == before + {last};
        assert last !in before;
      } else {
        assert after == before;
      }
    }
  }

  /** The rows of `updateStatusDisplay` for a status dictionary. */
  function StatusRows(data: map<string, string>): (rows: seq<Row>)
    ensures |rows| <= |KeyOrder|
  {
    RowsFollowPresentKeys(data, KeyOrder);
    RowsFor(data, KeyOrder)
  }

  /** Rows follow the display order, for exactly the displayed keys the status has, values unchanged. */
  lemma StatusRowsSpec(data: map<string, string>)
    ensures var present := PresentKeys(data, KeyOrder);
            && |StatusRows(data)| == |present| == |set k | k in KeyOrder && k in data|
            && (forall key :: key in present <==> key in KeyOrder && key in data)
            && (forall i :: 0 <= i < |present| ==>
                  present[i] in data && StatusRows(data)[i] == RowFor(present[i], data[present[i]]))
            && InOrderOf(present, KeyOrder)
  {
    KeyOrderDistinct();
    RowsFollowPresentKeys(data, KeyOrder);
    PresentKeyCount(data, KeyOrder);
    PresentKeysInOrder(data, KeyOrder);
    forall key ensures key in PresentKeys(data, KeyOrder) <==> key in KeyOrder && key in data {
      PresentKeysExactly(data, KeyOrder, key);
    }
  }

  /**
   * A status line named `hasOwnProperty` becomes an own string property of the
   * dictionary the renderer receives, hiding `Object.prototype.hasOwnProperty`:
   * the display's `data.hasOwnProperty(key)` then raises a TypeError.
   */
  const HasOwnPropertyKey := "hasOwnProperty"

  /** The message of that TypeError, in V8's wording. */
  const HasOwnPropertyTypeError := "data.hasOwnProperty is not a function"

  /**
   * The `forEach` over the display order: the row of every present key, in
   * order. `data.hasOwnProperty(key)` raises on the first key when the
   * dictionary hides that method; no row has been added by then.
   */
  method DisplayRows(data: map<string, string>) returns (rows: seq<Row>, thrown: Option<string>)
    ensures HasOwnPropertyKey in data ==> thrown == Some(HasOwnPropertyTypeError) && rows == []
    ensures HasOwnPropertyKey !in data ==> thrown == None && rows == StatusRows(data)
  {
    rows, thrown := [], None;
    for i := 0 to |KeyOrder|
      invariant rows == RowsFor(data, KeyOrder[..i])
      invariant thrown == None && (i > 0 ==> HasOwnPropertyKey !in data)
    {
      if HasOwnPropertyKey in data {
        thrown := Some(HasOwnPropertyTypeError);
        return;
      }
      var key := KeyOrder[i];
      RowsForStep(data, KeyOrder, i);
      if key in data {
        var value := data[key];
        var classes := ["data-value"];
        if key == "LastDeadlineResult" {
          if value == "MET" {
            classes := classes + ["met"];
          }
          if value == "MISSED" {
            classes := classes + ["missed"];
          }
        }
        if key == "TaskStatus" && value == "EXECUTING" {
          classes := classes + ["executing"];
        }
        if key == "MissedCount" && value != "0" {
          classes := classes + ["missed-count-non-zero"];
        }
        assert classes == ValueClasses(key, value);
        rows := rows + [Row(FormatLabel(key), value, classes)];
      }
    }
    assert KeyOrder[..|KeyOrder|] == KeyOrder;
  }

  // ---------------------------------------------------------------- inputs

  /**
   * The value of an input field after a status update: an empty field takes
   * the status value under `key` when that value is present and non-empty.
   */
  function FillInput(input: string, data: map<string, string>, key: string): (r: string)
    ensures input != [] ==> r == input
    ensures r != input <==> input == [] && key in data && data[key] != []
    ensures r != input ==> r == data[key]
  {
    if input == [] && key in data && data[key] != [] then data[key] else input
  }
}
