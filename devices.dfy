/**
  lib/devices.js: `parseAdbDevice`, which turns one line of `adb devices -l` output into a
  device record, and the text pipeline of `getConnectedDevices`, which turns the captured
  standard output of that command into the list of connected devices.
 */
module Devices {
  import opened Wrappers
  import opened JsString

  /** A device record: property name to value. A feature token without `:` stores its
      name with no value (JavaScript `undefined`), modelled as `None`. */
  type Device = map<string, Option<string>>

  /** The object literal `{ id, type }` that `parseAdbDevice` starts from. */
  function Initial(id: string, state: string): Device {
    map["id" := Some(id), "type" := Some(state)]
  }

  /** One feature token after `const [key, value] = rawFeature.split(':')`. */
  datatype Feature = Feature(key: string, value: Option<string>)

  /** `rawFeature.split(':')` keeps only its first two pieces: the key, and the value if there
      is a second piece. */
  function FeatureEntry(rawFeature: string): Feature {
    var pieces := Split(rawFeature, ':');
    Feature(pieces[0], if |pieces| > 1 then Some(pieces[1]) else None)
  }

  /** The key is the text before the first `:`; the value is the text between the first and
      the second `:` (or the end); a token without `:` is its own key and has no value. */
  lemma FeatureEntryMeaning(rawFeature: string)
    ensures var f := FeatureEntry(rawFeature);
      && ':' !in f.key
      && f.key <= rawFeature
      && (f.value.None? <==> ':' !in rawFeature)
      && (f.value.None? ==> f.key == rawFeature)
      && (f.value.Some? ==>
            && ':' !in f.value.value
            && f.key + [':'] + f.value.value <= rawFeature
            && var n := |f.key| + 1 + |f.value.value|;
               n == |rawFeature| || rawFeature[n] == ':')
  {
    var pieces := Split(rawFeature, ':');
    JoinSplit(rawFeature, ':');
    if |pieces| == 1 {
      assert rawFeature == pieces[0];
    } else {
      var tail := Join(pieces[1..], ':');
      assert rawFeature == pieces[0] + [':'] + tail;
      assert rawFeature[|pieces[0]|] == ':';
      if |pieces| == 2 {
        assert tail == pieces[1];
      } else {
        assert tail == pieces[1] + [':'] + Join(pieces[2..], ':');
        assert rawFeature == pieces[0] + [':'] + pieces[1] + [':'] + Join(pieces[2..], ':');
      }
    }
  }

  /** A `key:value` token with no further `:` gives that key and that value. */
  lemma FeatureEntryOfPair(key: string, value: string)
    requires ':' !in key && ':' !in value
    ensures FeatureEntry(key + ":" + value) == Feature(key, Some(value))
  {
    SplitJoin([key, value], ':');
    assert Join([key, value], ':') == key + ":" + value;
  }

  /** A token without `:` is its own key and has no value. */
  lemma FeatureEntryOfFlag(rawFeature: string)
    requires ':' !in rawFeature
    ensures FeatureEntry(rawFeature) == Feature(rawFeature, None)
  {
    FeatureEntryMeaning(rawFeature);
  }

  /** The keys that a sequence of feature tokens assigns. */
  function FeatureKeys(features: seq<string>): set<string> {
    set k | 0 <= k < |features| :: FeatureEntry(features[k]).key
  }

  /** `features.forEach((rawFeature) => { ...; device[key] = value; })`: the assignments in
      order, left to right. */
  function ApplyFeatures(device: Device, features: seq<string>): Device
    decreases |features|
  {
    if features == [] then device
    else
      var f := FeatureEntry(features[|features| - 1]);
      ApplyFeatures(device, features[..|features| - 1])[f.key := f.value]
  }

  /** One more feature token is one more assignment, made last. */
  lemma ApplyFeaturesSnoc(device: Device, features: seq<string>, rawFeature: string)
    ensures ApplyFeatures(device, features + [rawFeature]) ==
      ApplyFeatures(device, features)[FeatureEntry(rawFeature).key := FeatureEntry(rawFeature).value]
  {
    assert (features + [rawFeature])[..|features|] == features;
  }

  /** The assignments add exactly the feature keys to the record. */
  lemma {:induction false} ApplyFeaturesKeys(device: Device, features: seq<string>)
    ensures ApplyFeatures(device, features).Keys == device.Keys + FeatureKeys(features)
    decreases |features|
  {
    if features != [] {
      var n := |features| - 1;
      ApplyFeaturesKeys(device, features[..n]);
      assert FeatureKeys(features) == FeatureKeys(features[..n]) + {FeatureEntry(features[n]).key} by {
        assert forall k :: 0 <= k < n ==> features[..n][k] == features[k];
      }
    }
  }

  /** A key that no feature token names keeps its value from before. */
  lemma {:induction false} ApplyFeaturesUntouched(device: Device, features: seq<string>, key: string)
    requires forall k :: 0 <= k < |features| ==> FeatureEntry(features[k]).key != key
    ensures key in ApplyFeatures(device, features) <==> key in device
    ensures key in device ==> ApplyFeatures(device, features)[key] == device[key]
    decreases |features|
  {
    if features != [] {
      var n := |features| - 1;
      assert forall k :: 0 <= k < n ==> features[..n][k] == features[k];
      ApplyFeaturesUntouched(device, features[..n], key);
    }
  }

  /** The last feature token naming a key decides its value: later tokens overwrite earlier ones. */
  lemma {:induction false} ApplyFeaturesLastWins(device: Device, features: seq<string>, j: nat)
    requires j < |features|
    requires forall k :: j < k < |features| ==> FeatureEntry(features[k]).key != FeatureEntry(features[j]).key
    ensures FeatureEntry(features[j]).key in ApplyFeatures(device, features)
    ensures ApplyFeatures(device, features)[FeatureEntry(features[j]).key] == FeatureEntry(features[j]).value
    decreases |features|
  {
    var n := |features| - 1;
    if j < n {
      assert forall k :: 0 <= k < n ==> features[..n][k] == features[k];
      ApplyFeaturesLastWins(device, features[..n], j);
    }
  }

  /** `parseAdbDevice(rawString)`: `None` for `null`. */
  function Parse(rawString: string): Option<Device> {
    if StartsWith(rawString, "List of") then None
    else if StartsWith(rawString, "*") then None
    else
      var tokens := SplitWhitespace(rawString);
      if |tokens| < 2 || tokens[1] != "device" then None
      else Some(ApplyFeatures(Initial(tokens[0], tokens[1]), tokens[2..]))
  }

  /** `parseAdbDevice`, step by step as the source runs it: the two prefix checks, the
      whitespace split, the `type` check, then one assignment per feature token. */
  method ParseAdbDevice(rawString: string) returns (device: Option<Device>)
    ensures device == Parse(rawString)
  {
    if StartsWith(rawString, "List of") {
      return None;
    }
    if StartsWith(rawString, "*") {
      return None;
    }
    var tokens := SplitWhitespace(rawString);
    if |tokens| < 2 || tokens[1] != "device" {
      return None;
    }
    var id, state, features := tokens[0], tokens[1], tokens[2..];
    var record := Initial(id, state);
    var i := 0;
    while i < |features|
      invariant i <= |features|
      invariant record == ApplyFeatures(Initial(id, state), features[..i])
    {
      var f := FeatureEntry(features[i]);
      assert features[..i + 1][..i] == features[..i];
      record := record[f.key := f.value];
      i := i + 1;
    }
    assert features[..i] == features;
    device := Some(record);
  }

  /** A line of words joined by single spaces parses from its words (the first may be empty,
      standing for a leading space). */
  lemma ParseSpaced(words: seq<string>)
    requires |words| >= 1
    requires forall k :: 0 <= k < |words| ==> NoWhitespace(words[k])
    requires forall k :: 0 < k < |words| ==> words[k] != ""
    requires !StartsWith(Join(words, ' '), "List of")
    requires words[0] == "" || words[0][0] != '*'
    ensures Parse(Join(words, ' ')) ==
      if |words| >= 2 && words[1] == "device"
      then Some(ApplyFeatures(Initial(words[0], "device"), words[2..]))
      else None
  {
    var line := Join(words, ' ');
    SplitWhitespaceOfSpaced(words);
    JoinStartsWithFirst(words, ' ');
    if words[0] == "" {
      if |words| > 1 {
        assert line == "" + " " + Join(words[1..], ' ');
        assert line[0] == ' ';
      }
    } else {
      assert line[0] == words[0][0];
    }
    assert !StartsWith(line, "*");
  }

  /** A line whose tokens are separated by arbitrary runs of whitespace parses from its
      tokens: the path real, column-aligned output takes. */
  lemma ParseSeparated(tokens: seq<string>, seps: seq<string>)
    requires WellSeparated(tokens, seps)
    requires !StartsWith(Interleave(tokens, seps), "List of")
    requires tokens[0] == "" || tokens[0][0] != '*'
    ensures Parse(Interleave(tokens, seps)) ==
      if |tokens| >= 2 && tokens[1] == "device"
      then Some(ApplyFeatures(Initial(tokens[0], "device"), tokens[2..]))
      else None
  {
    SplitWhitespaceOfInterleave(tokens, seps);
    NotStatusLine(tokens, seps);
  }

  /** A line whose first token does not start with `*` is not a daemon status line. */
  lemma NotStatusLine(tokens: seq<string>, seps: seq<string>)
    requires WellSeparated(tokens, seps)
    requires tokens[0] == "" || tokens[0][0] != '*'
    ensures !StartsWith(Interleave(tokens, seps), "*")
  {
    var line := Interleave(tokens, seps);
    InterleaveStartsWithFirst(tokens, seps);
    if tokens[0] == "" {
      if |seps| > 0 {
        assert line == "" + (seps[0] + Interleave(tokens[1..], seps[1..]));
        assert line[0] == seps[0][0];
        assert IsWhitespace(line[0]);
      }
    } else {
      assert line[0] == tokens[0][0];
    }
  }

  /** A line of words joined by single spaces is the header only if its first word is
      exactly `List`: the fifth character of `List of` is a space, which no word holds. */
  lemma NotHeaderLine(words: seq<string>)
    requires |words| >= 1 && NoWhitespace(words[0]) && words[0] != "List"
    ensures !StartsWith(Join(words, ' '), "List of")
  {
    var line, w := Join(words, ' '), words[0];
    JoinStartsWithFirst(words, ' ');
    if 7 <= |line| {
      if 5 <= |w| {
        assert line[4] == w[4] && !IsWhitespace(w[4]);
        assert line[..7][4] != "List of"[4];
      } else if |w| == 4 {
        assert line[..7][..4] == w;
        assert "List of"[..4] == "List";
      } else {
        assert |words| > 1;
        assert line == w + [' '] + Join(words[1..], ' ');
        assert line[|w|] == ' ';
        assert line[..7][|w|] != "List of"[|w|];
      }
    }
  }

  /** A line is accepted exactly when it starts with neither `List of` nor `*` and its
      second whitespace-separated token is exactly `device`. */
  lemma ParseAccepts(rawString: string)
    ensures Parse(rawString).Some? <==>
      && !StartsWith(rawString, "List of")
      && !StartsWith(rawString, "*")
      && |SplitWhitespace(rawString)| >= 2
      && SplitWhitespace(rawString)[1] == "device"
  {
  }

  /** Any line starting with `List of` or with `*` is rejected, whatever follows. */
  lemma ParseRejectsHeaderAndStatus(suffix: string)
    ensures Parse("List of" + suffix) == None
    ensures Parse("*" + suffix) == None
  {
    assert StartsWith("List of" + suffix, "List of");
    assert StartsWith("*" + suffix, "*");
  }

  /** An accepted line's record has exactly the keys `id`, `type` and the feature keys. */
  lemma ParseKeys(rawString: string)
    requires Parse(rawString).Some?
    ensures Parse(rawString).value.Keys == {"id", "type"} + FeatureKeys(SplitWhitespace(rawString)[2..])
  {
    var tokens := SplitWhitespace(rawString);
    ApplyFeaturesKeys(Initial(tokens[0], tokens[1]), tokens[2..]);
  }

  /** `id` and `type` keep the first two tokens unless a feature token overwrites them. */
  lemma ParseIdAndType(rawString: string)
    requires Parse(rawString).Some?
    ensures "id" in Parse(rawString).value && "type" in Parse(rawString).value
    ensures var tokens := SplitWhitespace(rawString);
      var features := tokens[2..];
      && ((forall k :: 0 <= k < |features| ==> FeatureEntry(features[k]).key != "id") ==>
            Parse(rawString).value["id"] == Some(tokens[0]))
      && ((forall k :: 0 <= k < |features| ==> FeatureEntry(features[k]).key != "type") ==>
            Parse(rawString).value["type"] == Some("device"))
  {
    var tokens := SplitWhitespace(rawString);
    var features := tokens[2..];
    var initial := Initial(tokens[0], tokens[1]);
    ParseKeys(rawString);
    if forall k :: 0 <= k < |features| ==> FeatureEntry(features[k]).key != "id" {
      ApplyFeaturesUntouched(initial, features, "id");
    }
    if forall k :: 0 <= k < |features| ==> FeatureEntry(features[k]).key != "type" {
      ApplyFeaturesUntouched(initial, features, "type");
    }
  }

  /** For an accepted line, the last feature token naming a key decides that key's value. */
  lemma ParseLastFeatureWins(rawString: string, j: nat)
    requires Parse(rawString).Some?
    requires j < |SplitWhitespace(rawString)[2..]|
    requires var features := SplitWhitespace(rawString)[2..];
      forall k :: j < k < |features| ==> FeatureEntry(features[k]).key != FeatureEntry(features[j]).key
    ensures var f := FeatureEntry(SplitWhitespace(rawString)[2..][j]);
      f.key in Parse(rawString).value && Parse(rawString).value[f.key] == f.value
  {
    var tokens := SplitWhitespace(rawString);
    ApplyFeaturesLastWins(Initial(tokens[0], tokens[1]), tokens[2..], j);
  }

  /** `device.type === 'device'`: a missing `type` reads as `undefined`, which is not `'device'`. */
  predicate IsDeviceType(device: Device) {
    "type" in device && device["type"] == Some("device")
  }

  /** An accepted line passes the `type` filter unless a `type` feature token overwrote its
      type: then the last such token decides. */
  lemma ParseTypeFilter(rawString: string)
    requires Parse(rawString).Some?
    ensures var features := SplitWhitespace(rawString)[2..];
      (forall k :: 0 <= k < |features| ==> FeatureEntry(features[k]).key != "type")
      ==> IsDeviceType(Parse(rawString).value)
    ensures var features := SplitWhitespace(rawString)[2..];
      forall j :: 0 <= j < |features| && FeatureEntry(features[j]).key == "type" &&
        (forall k :: j < k < |features| ==> FeatureEntry(features[k]).key != "type")
        ==> (IsDeviceType(Parse(rawString).value) <==> FeatureEntry(features[j]).value == Some("device"))
  {
    var features := SplitWhitespace(rawString)[2..];
    ParseIdAndType(rawString);
    forall j | 0 <= j < |features| && FeatureEntry(features[j]).key == "type" &&
        (forall k :: j < k < |features| ==> FeatureEntry(features[k]).key != "type")
      ensures IsDeviceType(Parse(rawString).value) <==> FeatureEntry(features[j]).value == Some("device")
    {
      ParseLastFeatureWins(rawString, j);
    }
  }

  // ---------------------------------------------------------------------------
  // The pipeline of getConnectedDevices

  /** What `getConnectedDevices` throws: the `TypeError` of reading `.type` of the `null`
      that `parseAdbDevice` returns for a rejected line. */
  datatype ListError = TypeErrorReadingTypeOfNull

  predicate Increasing(idx: seq<nat>) {
    forall a, b :: 0 <= a < b < |idx| ==> idx[a] < idx[b]
  }

  /** Appending a position beyond all others keeps the positions increasing. */
  lemma IncreasingSnoc(idx: seq<nat>, n: nat)
    requires Increasing(idx)
    requires forall k :: 0 <= k < |idx| ==> idx[k] < n
    ensures Increasing(idx + [n])
  {
  }

  /** `stdout.split('\n').map(s => s.trim())` */
  function Rows(stdout: string): seq<string> {
    var lines := Split(stdout, '\n');
    seq(|lines|, i requires 0 <= i < |lines| => Trim(lines[i]))
  }

  /** `.filter((row, index) => (row.length && index > 0))`: `index` is the position among all
      rows, the empty ones included. */
  function KeepRows(rows: seq<string>): seq<string>
    decreases |rows|
  {
    if rows == [] then []
    else
      var n := |rows| - 1;
      KeepRows(rows[..n]) + (if |rows[n]| > 0 && n > 0 then [rows[n]] else [])
  }

  /** The positions of the rows that `KeepRows` keeps, in increasing order. */
  function KeptIndices(rows: seq<string>): (idx: seq<nat>)
    ensures Increasing(idx)
    ensures forall k :: 0 <= k < |idx| ==> idx[k] < |rows|
    ensures forall i :: i in idx <==> 0 < i < |rows| && rows[i] != ""
    decreases |rows|
  {
    if rows == [] then []
    else
      var n := |rows| - 1;
      var before := KeptIndices(rows[..n]);
      assert forall i :: 0 <= i < n ==> rows[..n][i] == rows[i];
      IncreasingSnoc(before, n);
      if |rows[n]| > 0 && n > 0 then before + [n] else before
  }

  /** The kept rows are the non-empty rows after the first, each exactly once, in order. */
  lemma {:induction false} KeepRowsPicks(rows: seq<string>)
    ensures |KeepRows(rows)| == |KeptIndices(rows)|
    ensures forall k :: 0 <= k < |KeptIndices(rows)| ==> KeepRows(rows)[k] == rows[KeptIndices(rows)[k]]
    decreases |rows|
  {
    if rows != [] {
      var n := |rows| - 1;
      KeepRowsPicks(rows[..n]);
    }
  }

  /** `.map(parseAdbDevice)` */
  function ParseAll(rows: seq<string>): (parsed: seq<Option<Device>>) {
    seq(|rows|, i requires 0 <= i < |rows| => Parse(rows[i]))
  }

  /** `.filter(device => (device.type === 'device'))`, run left to right: the first `null`
      throws; otherwise the records whose `type` is `device` remain. */
  function SelectDevices(parsed: seq<Option<Device>>): Result<seq<Device>, ListError>
    decreases |parsed|
  {
    if parsed == [] then Ok([])
    else
      var n := |parsed| - 1;
      match SelectDevices(parsed[..n])
      case Err(e) => Err(e)
      case Ok(kept) =>
        match parsed[n]
        case None => Err(TypeErrorReadingTypeOfNull)
        case Some(device) => Ok(if IsDeviceType(device) then kept + [device] else kept)
  }

  /** `getConnectedDevices()` on the captured standard output of `adb devices -l`. */
  function GetConnectedDevices(stdout: string): Result<seq<Device>, ListError> {
    SelectDevices(ParseAll(KeepRows(Rows(stdout))))
  }

  /** The records the type filter would keep if it skipped the `null`s instead of
      dereferencing them. */
  function KeepDeviceRecords(parsed: seq<Option<Device>>): seq<Device>
    decreases |parsed|
  {
    if parsed == [] then []
    else
      var n := |parsed| - 1;
      KeepDeviceRecords(parsed[..n]) +
        (if parsed[n].Some? && IsDeviceType(parsed[n].value) then [parsed[n].value] else [])
  }

  /** `getConnectedDevices()` with rejected lines skipped rather than dereferenced. */
  function ConnectedDevicesIntended(stdout: string): seq<Device> {
    Listed(Rows(stdout))
  }

  /** The type filter throws exactly when some parse result is `null`; otherwise it keeps
      what `KeepDeviceRecords` keeps. */
  lemma {:induction false} SelectDevicesOutcome(parsed: seq<Option<Device>>)
    ensures SelectDevices(parsed) ==
      if None in parsed then Err(TypeErrorReadingTypeOfNull) else Ok(KeepDeviceRecords(parsed))
    decreases |parsed|
  {
    if parsed != [] {
      var n := |parsed| - 1;
      var before := parsed[..n];
      SelectDevicesOutcome(before);
      assert parsed == before + [parsed[n]];
      assert None in parsed <==> None in before || parsed[n] == None;
      if None !in parsed {
        var device := parsed[n].value;
        assert SelectDevices(before) == Ok(KeepDeviceRecords(before));
        assert parsed[..n] == before;
        if !IsDeviceType(device) {
          assert KeepDeviceRecords(before) + [] == KeepDeviceRecords(before);
          assert KeepDeviceRecords(parsed) == KeepDeviceRecords(before);
          assert SelectDevices(parsed) == Ok(KeepDeviceRecords(before));
        }
      }
    }
  }

  /** A row, past the first, whose record `getConnectedDevices` lists: non-empty, accepted by
      the parser, and of type `device`. */
  predicate Listable(row: string) {
    row != "" && Parse(row).Some? && IsDeviceType(Parse(row).value)
  }

  /** The positions of the rows whose records `getConnectedDevices` lists, in increasing order. */
  function ListedIndices(rows: seq<string>): (idx: seq<nat>)
    ensures Increasing(idx)
    ensures forall k :: 0 <= k < |idx| ==> idx[k] < |rows|
    ensures forall i :: i in idx <==> 0 < i < |rows| && Listable(rows[i])
    decreases |rows|
  {
    if rows == [] then []
    else
      var n := |rows| - 1;
      var before := ListedIndices(rows[..n]);
      assert forall i :: 0 <= i < n ==> rows[..n][i] == rows[i];
      IncreasingSnoc(before, n);
      if n > 0 && Listable(rows[n]) then before + [n] else before
  }

  lemma {:induction false} KeepDeviceRecordsAppend(a: seq<Option<Device>>, b: seq<Option<Device>>)
    ensures KeepDeviceRecords(a + b) == KeepDeviceRecords(a) + KeepDeviceRecords(b)
    decreases |b|
  {
    if b != [] {
      var n := |b| - 1;
      KeepDeviceRecordsAppend(a, b[..n]);
      assert (a + b)[..|a + b| - 1] == a + b[..n];
      assert (a + b)[|a + b| - 1] == b[n];
    } else {
      assert a + b == a;
    }
  }

  /** What the intended pipeline lists for the rows, written as one function of the rows. */
  function Listed(rows: seq<string>): seq<Device> {
    KeepDeviceRecords(ParseAll(KeepRows(rows)))
  }

  /** The last row contributes its record, if any, at the end of the list. */
  lemma ListedSnoc(rows: seq<string>)
    requires rows != []
    ensures var n := |rows| - 1;
      Listed(rows) == Listed(rows[..n]) + if n > 0 && Listable(rows[n]) then [Parse(rows[n]).value] else []
  {
    var n := |rows| - 1;
    var last := if |rows[n]| > 0 && n > 0 then [rows[n]] else [];
    assert ParseAll(KeepRows(rows)) == ParseAll(KeepRows(rows[..n])) + ParseAll(last);
    KeepDeviceRecordsAppend(ParseAll(KeepRows(rows[..n])), ParseAll(last));
    if last != [] {
      assert ParseAll(last) == [Parse(rows[n])];
      assert ParseAll(last)[..0] == [];
    }
  }

  /** The last row adds its position, if listed, after all the others. */
  lemma ListedIndicesSnoc(rows: seq<string>)
    requires rows != []
    ensures var n := |rows| - 1;
      ListedIndices(rows) == ListedIndices(rows[..n]) + if n > 0 && Listable(rows[n]) then [n] else []
  {
  }

  /** The device list of the intended pipeline, described row by row: the records of the
      rows `ListedIndices` names, in the order of the rows. */
  lemma {:induction false} ListedRecords(rows: seq<string>)
    ensures |Listed(rows)| == |ListedIndices(rows)|
    ensures forall k :: 0 <= k < |Listed(rows)| ==> Some(Listed(rows)[k]) == Parse(rows[ListedIndices(rows)[k]])
    decreases |rows|
  {
    if rows != [] {
      var n := |rows| - 1;
      var prefix := rows[..n];
      ListedRecords(prefix);
      ListedSnoc(rows);
      ListedIndicesSnoc(rows);
      var before, listed := ListedIndices(prefix), Listed(prefix);
      var idx, all := ListedIndices(rows), Listed(rows);
      forall k | 0 <= k < |all|
        ensures Some(all[k]) == Parse(rows[idx[k]])
      {
        if k < |before| {
          assert all[k] == listed[k] && idx[k] == before[k];
          assert prefix[before[k]] == rows[before[k]];
        }
      }
    }
  }

  /** `getConnectedDevices()` throws exactly when some row after the first, non-empty after
      trimming, is rejected by the parser; when it returns, it returns the intended list. */
  lemma GetConnectedDevicesOutcome(stdout: string)
    ensures var rows := Rows(stdout);
      GetConnectedDevices(stdout).Err? <==>
        exists i :: 0 < i < |rows| && rows[i] != "" && Parse(rows[i]) == None
    ensures GetConnectedDevices(stdout).Ok? ==>
      GetConnectedDevices(stdout).value == ConnectedDevicesIntended(stdout)
  {
    var rows := Rows(stdout);
    var kept := KeepRows(rows);
    var parsed := ParseAll(kept);
    SelectDevicesOutcome(parsed);
    KeepRowsPicks(rows);
    var idx := KeptIndices(rows);
    if None in parsed {
      var k :| 0 <= k < |parsed| && parsed[k] == None;
      assert idx[k] in idx;
    }
    if exists i :: 0 < i < |rows| && rows[i] != "" && Parse(rows[i]) == None {
      var i :| 0 < i < |rows| && rows[i] != "" && Parse(rows[i]) == None;
      assert i in idx;
      var k :| 0 <= k < |idx| && idx[k] == i;
      assert parsed[k] == None;
    }
  }

  /** The intended list: the records of the listed rows, in the order of the rows. */
  lemma ConnectedDevicesIntendedRows(stdout: string)
    ensures var rows, listed := Rows(stdout), ConnectedDevicesIntended(stdout);
      && |listed| == |ListedIndices(rows)|
      && forall k :: 0 <= k < |listed| ==> Some(listed[k]) == Parse(rows[ListedIndices(rows)[k]])
  {
    ListedRecords(Rows(stdout));
  }
}
