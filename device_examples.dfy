/**
  Concrete lines and outputs of `adb devices -l`, and what the model of lib/devices.js
  makes of them. Lines are written as their words joined by single spaces
  (`Join(words, ' ')`), and outputs as their lines joined by line breaks.
 */
module DeviceExamples {
  import opened Wrappers
  import opened JsString
  import opened Devices

  const EmulatorFeatureTokens := ["product:sdk_gphone_x86", "model:sdk_gphone_x86", "transport_id:1"]
  const Emulator := ["emulator-5554", "device"] + EmulatorFeatureTokens
  const EmulatorRecord: Device := map[
    "id" := Some("emulator-5554"), "type" := Some("device"),
    "product" := Some("sdk_gphone_x86"), "model" := Some("sdk_gphone_x86"),
    "transport_id" := Some("1")]

  lemma ProductEntry()
    ensures FeatureEntry("product:sdk_gphone_x86") == Feature("product", Some("sdk_gphone_x86"))
  {
    FeatureEntryOfPair("product", "sdk_gphone_x86");
    assert "product" + ":" + "sdk_gphone_x86" == "product:sdk_gphone_x86";
  }

  lemma ModelEntry()
    ensures FeatureEntry("model:sdk_gphone_x86") == Feature("model", Some("sdk_gphone_x86"))
  {
    FeatureEntryOfPair("model", "sdk_gphone_x86");
    assert "model" + ":" + "sdk_gphone_x86" == "model:sdk_gphone_x86";
  }

  lemma TransportEntry()
    ensures FeatureEntry("transport_id:1") == Feature("transport_id", Some("1"))
  {
    FeatureEntryOfPair("transport_id", "1");
    assert "transport_id" + ":" + "1" == "transport_id:1";
  }

  lemma ApplyOneFeature(device: Device, f: string)
    ensures ApplyFeatures(device, [f]) == device[FeatureEntry(f).key := FeatureEntry(f).value]
  {
    ApplyFeaturesSnoc(device, [], f);
    assert [] + [f] == [f];
  }

  /** Three feature tokens are applied one after the other, left to right. */
  lemma ApplyThreeFeatures(device: Device, f1: string, f2: string, f3: string)
    ensures ApplyFeatures(device, [f1, f2, f3]) ==
      device[FeatureEntry(f1).key := FeatureEntry(f1).value]
            [FeatureEntry(f2).key := FeatureEntry(f2).value]
            [FeatureEntry(f3).key := FeatureEntry(f3).value]
  {
    ApplyFeaturesSnoc(device, [], f1);
    ApplyFeaturesSnoc(device, [f1], f2);
    ApplyFeaturesSnoc(device, [f1, f2], f3);
    assert [] + [f1] == [f1] && [f1] + [f2] == [f1, f2] && [f1, f2] + [f3] == [f1, f2, f3];
  }

  lemma EmulatorFeatures()
    ensures ApplyFeatures(Initial("emulator-5554", "device"), EmulatorFeatureTokens) == EmulatorRecord
  {
    ProductEntry();
    ModelEntry();
    TransportEntry();
    ApplyThreeFeatures(Initial("emulator-5554", "device"), "product:sdk_gphone_x86", "model:sdk_gphone_x86", "transport_id:1");
  }

  /** A device line with three features gives a record with exactly those properties. */
  lemma EmulatorLine()
    ensures Parse(Join(Emulator, ' ')) == Some(EmulatorRecord)
  {
    EmulatorWords();
    NotHeaderLine(Emulator);
    ParseSpaced(Emulator);
    assert Emulator[2..] == EmulatorFeatureTokens;
    EmulatorFeatures();
  }

  const Offline := ["emulator-5556", "offline"]

  /** An `offline` device is rejected by the `type` check. */
  lemma OfflineLineRejected()
    ensures Parse(Join(Offline, ' ')) == None
  {
    OfflineWords();
    NotHeaderLine(Offline);
    ParseSpaced(Offline);
  }

  const Flagged := ["dev1", "device", "nestedflag"]

  /** A feature token without `:` is present with no value. */
  lemma FlagWithoutValue()
    ensures Parse(Join(Flagged, ' ')) ==
      Some(map["id" := Some("dev1"), "type" := Some("device"), "nestedflag" := None])
  {
    NotHeaderLine(Flagged);
    ParseSpaced(Flagged);
    assert Flagged[2..] == ["nestedflag"];
    FlagRecord();
  }

  lemma FlagRecord()
    ensures ApplyFeatures(Initial("dev1", "device"), ["nestedflag"]) ==
      map["id" := Some("dev1"), "type" := Some("device"), "nestedflag" := None]
  {
    FeatureEntryOfFlag("nestedflag");
    ApplyOneFeature(Initial("dev1", "device"), "nestedflag");
  }

  /** Only the first two colon pieces count, and a leading `:` gives the empty key. */
  lemma ColonPieces()
    ensures FeatureEntry("a:b:c") == Feature("a", Some("b"))
    ensures FeatureEntry(":x") == Feature("", Some("x"))
  {
    SplitJoin(["a", "b", "c"], ':');
    assert Join(["a", "b", "c"], ':') == "a:b:c";
    FeatureEntryOfPair("", "x");
  }

  lemma OverwrittenFeatures()
    ensures ApplyFeatures(Initial("dev2", "device"), ["type:usb"]) == map["id" := Some("dev2"), "type" := Some("usb")]
  {
    FeatureEntryOfPair("type", "usb");
    assert "type" + ":" + "usb" == "type:usb";
    ApplyOneFeature(Initial("dev2", "device"), "type:usb");
  }

  /** A later `type:` token overwrites the type, and the record then fails the type filter. */
  lemma TypeOverwritten()
    ensures Parse(Join(["dev2", "device", "type:usb"], ' ')) ==
      Some(map["id" := Some("dev2"), "type" := Some("usb")])
    ensures !IsDeviceType(map["id" := Some("dev2"), "type" := Some("usb")])
  {
    NotHeaderLine(["dev2", "device", "type:usb"]);
    ParseSpaced(["dev2", "device", "type:usb"]);
    OverwrittenFeatures();
    assert ["dev2", "device", "type:usb"][2..] == ["type:usb"];
  }

  /** Leading whitespace makes the first token empty, so the second token is the id;
      the empty line has no second token. */
  lemma LeadingWhitespaceRejected()
    ensures Parse(Join(["", "dev1", "device"], ' ')) == None
    ensures Parse("") == None
  {
    NotHeaderLine(["", "dev1", "device"]);
    ParseSpaced(["", "dev1", "device"]);
    NotHeaderLine([""]);
    ParseSpaced([""]);
  }

  /** A leading space is rejected only because the id moves to the type position: when
      the id is itself `device`, the line is accepted with the empty id. */
  lemma LeadingSpaceDeviceId()
    ensures Parse(" device") == Some(map["id" := Some(""), "type" := Some("device")])
  {
    var words := ["", "device"];
    assert Join(words, ' ') == " device";
    NotHeaderLine(words);
    ParseSpaced(words);
    assert words[2..] == [];
  }

  /** A line with no line break and no whitespace at either end: `split('\n')` keeps it
      whole and `trim()` leaves it alone. */
  predicate Unpadded(line: string) {
    '\n' !in line && (line == "" || (!IsWhitespace(line[0]) && !IsWhitespace(line[|line| - 1])))
  }

  lemma SpacedUnpadded(words: seq<string>)
    requires |words| >= 1
    requires forall k :: 0 <= k < |words| ==> words[k] != "" && NoWhitespace(words[k])
    ensures Join(words, ' ') != "" && Unpadded(Join(words, ' '))
  {
    SpacedLine(words);
  }

  lemma TrimUnpadded(lines: seq<string>)
    requires forall k :: 0 <= k < |lines| ==> Unpadded(lines[k])
    ensures forall k :: 0 <= k < |lines| ==> Trim(lines[k]) == lines[k]
  {
    forall k | 0 <= k < |lines|
      ensures Trim(lines[k]) == lines[k]
    {
      TrimKeepsUnpadded(lines[k]);
    }
  }

  /** Unpadded lines joined by line breaks come back as the rows. */
  lemma RowsOfLines(lines: seq<string>)
    requires |lines| >= 1
    requires forall k :: 0 <= k < |lines| ==> Unpadded(lines[k])
    ensures Rows(Join(lines, '\n')) == lines
  {
    SplitJoin(lines, '\n');
    TrimUnpadded(lines);
  }

  lemma RowsOfFourLines(h: string, x: string, y: string)
    requires Unpadded(h) && Unpadded(x) && Unpadded(y)
    ensures Rows(Join([h, x, y, ""], '\n')) == [h, x, y, ""]
  {
    var lines := [h, x, y, ""];
    forall k | 0 <= k < |lines|
      ensures Unpadded(lines[k])
    {
      if k == 0 {
        assert lines[k] == h;
      } else if k == 1 {
        assert lines[k] == x;
      } else if k == 2 {
        assert lines[k] == y;
      } else {
        assert lines[k] == "";
      }
    }
    RowsOfLines(lines);
  }

  lemma RowsOfFiveLines(h: string, x: string, y: string, z: string)
    requires Unpadded(h) && Unpadded(x) && Unpadded(y) && Unpadded(z)
    ensures Rows(Join([h, x, y, z, ""], '\n')) == [h, x, y, z, ""]
  {
    var lines := [h, x, y, z, ""];
    forall k | 0 <= k < |lines|
      ensures Unpadded(lines[k])
    {
      if k == 0 {
        assert lines[k] == h;
      } else if k == 1 {
        assert lines[k] == x;
      } else if k == 2 {
        assert lines[k] == y;
      } else if k == 3 {
        assert lines[k] == z;
      } else {
        assert lines[k] == "";
      }
    }
    RowsOfLines(lines);
  }

  /** The rows a header, two further rows and the empty row left by the final line break
      pass to the parser. */
  lemma KeepFourRows(header: string, a: string, b: string)
    requires a != "" && b != ""
    ensures KeepRows([header, a, b, ""]) == [a, b]
  {
    var r1, r2, r3, r4 := [header], [header, a], [header, a, b], [header, a, b, ""];
    assert r4[..3] == r3 && r3[..2] == r2 && r2[..1] == r1 && r1[..0] == [];
    assert KeepRows(r1) == [];
    assert KeepRows(r2) == [a];
    assert KeepRows(r3) == [a, b];
  }

  lemma KeepFiveRows(header: string, a: string, b: string, c: string)
    requires a != "" && b != "" && c != ""
    ensures KeepRows([header, a, b, c, ""]) == [a, b, c]
  {
    var r3, r4, r5 := [header, a, b], [header, a, b, c], [header, a, b, c, ""];
    KeepFourRows(header, a, b);
    assert [header, a, b, ""][..3] == r3;
    assert r5[..4] == r4 && r4[..3] == r3;
    assert KeepRows(r4) == [a, b, c];
  }

  /** A header, two device rows and the empty row left by the final line break. */
  lemma TwoDeviceRows(header: string, a: string, b: string)
    requires Listable(a) && Listable(b)
    ensures SelectDevices(ParseAll(KeepRows([header, a, b, ""]))) == Ok([Parse(a).value, Parse(b).value])
  {
    KeepFourRows(header, a, b);
    var parsed := ParseAll([a, b]);
    assert parsed == [Parse(a), Parse(b)];
    SelectDevicesOutcome(parsed);
    assert parsed[..1] == [Parse(a)] && parsed[..1][..0] == [];
    assert KeepDeviceRecords(parsed[..1]) == [Parse(a).value];
    assert KeepDeviceRecords(parsed) == [Parse(a).value, Parse(b).value];
    assert None !in parsed;
  }

  /** An offline row between two device rows. */
  lemma OfflineBetweenRows(header: string, a: string, offline: string, b: string)
    requires Listable(a) && Listable(b) && offline != "" && Parse(offline) == None
    ensures SelectDevices(ParseAll(KeepRows([header, a, offline, b, ""]))) == Err(TypeErrorReadingTypeOfNull)
    ensures Listed([header, a, offline, b, ""]) == [Parse(a).value, Parse(b).value]
  {
    KeepFiveRows(header, a, offline, b);
    var parsed := ParseAll([a, offline, b]);
    assert parsed == [Some(Parse(a).value), None, Some(Parse(b).value)];
    SelectDevicesOutcome(parsed);
    RecordsAroundNull(Parse(a).value, Parse(b).value);
  }

  lemma RecordsAroundNull(x: Device, y: Device)
    requires IsDeviceType(x) && IsDeviceType(y)
    ensures KeepDeviceRecords([Some(x), None, Some(y)]) == [x, y]
  {
    var parsed := [Some(x), None, Some(y)];
    assert parsed[..2] == [Some(x), None] && parsed[..2][..1] == [Some(x)] && parsed[..2][..1][..0] == [];
    assert KeepDeviceRecords(parsed[..2][..1]) == [x];
    assert KeepDeviceRecords(parsed[..2]) == [x];
  }

  const Physical := ["R58M31ABCDE", "device", "transport_id:2"]
  const PhysicalRecord: Device := map["id" := Some("R58M31ABCDE"), "type" := Some("device"), "transport_id" := Some("2")]

  lemma PhysicalEntry()
    ensures FeatureEntry("transport_id:2") == Feature("transport_id", Some("2"))
  {
    FeatureEntryOfPair("transport_id", "2");
    assert "transport_id" + ":" + "2" == "transport_id:2";
  }

  lemma PhysicalLine()
    ensures Parse(Join(Physical, ' ')) == Some(PhysicalRecord)
  {
    PhysicalWords();
    NotHeaderLine(Physical);
    ParseSpaced(Physical);
    assert Physical[2..] == ["transport_id:2"];
    PhysicalEntry();
    ApplyOneFeature(Initial("R58M31ABCDE", "device"), "transport_id:2");
  }

  /** `adb devices -l` pads the serial to a column: the run of spaces is one separator. */
  const PhysicalPadding := ["          ", " "]

  lemma InterleaveThree(a: string, b: string, c: string, w1: string, w2: string)
    ensures Interleave([a, b, c], [w1, w2]) == a + w1 + b + w2 + c
  {
    assert [a, b, c][1..] == [b, c] && [w1, w2][1..] == [w2];
    assert [b, c][1..] == [c] && [w2][1..] == [];
    assert Interleave([b, c], [w2]) == b + w2 + c;
    assert a + w1 + (b + w2 + c) == a + w1 + b + w2 + c;
  }

  lemma PaddedPhysicalText()
    ensures Interleave(Physical, PhysicalPadding) == "R58M31ABCDE          device transport_id:2"
  {
    InterleaveThree("R58M31ABCDE", "device", "transport_id:2", "          ", " ");
  }

  lemma PaddedPhysicalSeparated()
    ensures WellSeparated(Physical, PhysicalPadding)
  {
    PhysicalWords();
    assert AllWhitespace(PhysicalPadding[0]) && AllWhitespace(PhysicalPadding[1]);
  }

  lemma PaddedPhysicalRecord()
    ensures Parse(Interleave(Physical, PhysicalPadding)) == Some(PhysicalRecord)
  {
    PaddedPhysicalSeparated();
    InterleaveStartsWithFirst(Physical, PhysicalPadding);
    assert Interleave(Physical, PhysicalPadding)[0] == 'R';
    ParseSeparated(Physical, PhysicalPadding);
    assert Physical[2..] == ["transport_id:2"];
    PhysicalEntry();
    ApplyOneFeature(Initial("R58M31ABCDE", "device"), "transport_id:2");
  }

  /** The padded line gives the same record as the single-spaced one. */
  lemma PaddedPhysicalLine()
    ensures Parse("R58M31ABCDE          device transport_id:2") == Some(PhysicalRecord)
  {
    PaddedPhysicalText();
    PaddedPhysicalRecord();
  }

  const Header := ["List", "of", "devices", "attached"]

  /** Words that make a line when joined by single spaces. */
  predicate Words(words: seq<string>) {
    |words| >= 1 && forall k :: 0 <= k < |words| ==> words[k] != "" && NoWhitespace(words[k])
  }

  /** An output of a header line, two device lines and the final line break lists both
      devices, in the order of their lines. */
  lemma TwoDevicesOutputListed(header: seq<string>, a: seq<string>, b: seq<string>)
    requires Words(header) && Words(a) && Words(b)
    requires Listable(Join(a, ' ')) && Listable(Join(b, ' '))
    ensures GetConnectedDevices(Join([Join(header, ' '), Join(a, ' '), Join(b, ' '), ""], '\n')) ==
      Ok([Parse(Join(a, ' ')).value, Parse(Join(b, ' ')).value])
  {
    var h, x, y := Join(header, ' '), Join(a, ' '), Join(b, ' ');
    SpacedUnpadded(header);
    SpacedUnpadded(a);
    SpacedUnpadded(b);
    RowsOfFourLines(h, x, y);
    TwoDeviceRows(h, x, y);
  }

  /** The same with a line in the middle that the parser rejects. */
  lemma RejectedLineOutput(header: seq<string>, a: seq<string>, rejected: seq<string>, b: seq<string>)
    requires Words(header) && Words(a) && Words(rejected) && Words(b)
    requires Listable(Join(a, ' ')) && Listable(Join(b, ' ')) && Parse(Join(rejected, ' ')) == None
    ensures var stdout := Join([Join(header, ' '), Join(a, ' '), Join(rejected, ' '), Join(b, ' '), ""], '\n');
      && GetConnectedDevices(stdout) == Err(TypeErrorReadingTypeOfNull)
      && ConnectedDevicesIntended(stdout) == [Parse(Join(a, ' ')).value, Parse(Join(b, ' ')).value]
  {
    var h, x, r, y := Join(header, ' '), Join(a, ' '), Join(rejected, ' '), Join(b, ' ');
    SpacedUnpadded(header);
    SpacedUnpadded(a);
    SpacedUnpadded(rejected);
    SpacedUnpadded(b);
    RowsOfFiveLines(h, x, r, y);
    OfflineBetweenRows(h, x, r, y);
  }

  /** The output for two attached devices: the header, one line per device, and the final
      line break. */
  const TwoDevicesOutput := Join([Join(Header, ' '), Join(Emulator, ' '), Join(Physical, ' '), ""], '\n')

  lemma HeaderWords()
    ensures Words(Header)
  {
  }

  lemma EmulatorWords()
    ensures Words(Emulator)
  {
    assert NoWhitespace("emulator-5554") && NoWhitespace("device");
    assert NoWhitespace("product:sdk_gphone_x86") && NoWhitespace("model:sdk_gphone_x86");
    assert NoWhitespace("transport_id:1");
  }

  lemma OfflineWords()
    ensures Words(Offline)
  {
  }

  lemma PhysicalWords()
    ensures Words(Physical)
  {
  }

  /** Both devices are listed, in the order of their lines. */
  lemma TwoDevicesListed()
    ensures GetConnectedDevices(TwoDevicesOutput) == Ok([EmulatorRecord, PhysicalRecord])
  {
    HeaderWords();
    EmulatorWords();
    PhysicalWords();
    EmulatorLine();
    PhysicalLine();
    TwoDevicesOutputListed(Header, Emulator, Physical);
  }

  /** The same output with an offline device between the two. */
  const OfflineOutput :=
    Join([Join(Header, ' '), Join(Emulator, ' '), Join(Offline, ' '), Join(Physical, ' '), ""], '\n')

  /** The offline line parses to `null`, and reading its `type` throws, so no list is
      returned at all; skipping the `null` would list the two devices. */
  lemma OfflineLineThrows()
    ensures GetConnectedDevices(OfflineOutput) == Err(TypeErrorReadingTypeOfNull)
    ensures ConnectedDevicesIntended(OfflineOutput) == [EmulatorRecord, PhysicalRecord]
  {
    HeaderWords();
    EmulatorWords();
    OfflineWords();
    PhysicalWords();
    EmulatorLine();
    OfflineLineRejected();
    PhysicalLine();
    RejectedLineOutput(Header, Emulator, Offline, Physical);
  }

  lemma HeaderLineRejected()
    ensures Parse(Join(Header, ' ')) == None
  {
    assert Join(Header, ' ') == "List of" + " devices attached";
    ParseRejectsHeaderAndStatus(" devices attached");
  }

  /** A rejected row right after a blank first row is the first row passed to the parser. */
  lemma RejectedAfterBlankRow(x: string, y: string)
    requires x != "" && Parse(x) == None && y != ""
    ensures SelectDevices(ParseAll(KeepRows(["", x, y, ""]))) == Err(TypeErrorReadingTypeOfNull)
  {
    KeepFourRows("", x, y);
    var parsed := ParseAll([x, y]);
    assert parsed[0] == None;
    SelectDevicesOutcome(parsed);
  }

  /** The first row is skipped by its position among all rows, blank ones included: after a
      blank first line the header reaches the parser, which rejects it, and the call throws. */
  lemma HeaderAfterBlankLine()
    ensures GetConnectedDevices(Join(["", Join(Header, ' '), Join(Emulator, ' '), ""], '\n')) ==
      Err(TypeErrorReadingTypeOfNull)
  {
    var header, emulator := Join(Header, ' '), Join(Emulator, ' ');
    HeaderWords();
    EmulatorWords();
    SpacedUnpadded(Header);
    SpacedUnpadded(Emulator);
    RowsOfFourLines("", header, emulator);
    HeaderLineRejected();
    RejectedAfterBlankRow(header, emulator);
  }
}
