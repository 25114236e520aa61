# adb device listing parser (lib/devices.js), modelled in Dafny

lib/devices.js reads the output of `adb devices -l` and turns it into device records.

- `parseAdbDevice` takes one line of that output. It returns `null` for the header line
  (`List of devices attached`), for daemon status lines (`* daemon ...`) and for any line
  whose second whitespace-separated word is not exactly `device`. Otherwise it returns an
  object with `id`, `type` and one property per distinct feature key. The feature tokens
  are assigned left to right, so a repeated key keeps its last value. A token without `:`
  adds its name with the value `undefined`, and an `id:` or `type:` token overwrites that
  property.
- `getConnectedDevices` runs `adb devices -l` and processes its standard output:
  1. split it into lines;
  2. trim each line;
  3. drop empty lines and the line at position 0;
  4. parse each remaining line;
  5. keep the records whose `type` is `device`.

The model has four files.

- `wrappers.dfy`: `Option` (JavaScript `null`/`undefined`) and `Result` (a return or a
  thrown exception).
- `js_string.dfy`: the JavaScript string built-ins the code relies on, over `seq<char>`:
  - the `\s` class, which is also the set `trim()` strips;
  - `startsWith`;
  - `split(/\s+/g)`;
  - `split` with a one-character separator, and its inverse `join`;
  - `trim()`.

  Each built-in comes with the round trip or invariant that pins it down.
- `devices.dfy`: the core, in two parts.
  - `parseAdbDevice` has two forms:
    - the function `Parse`, which is the specification;
    - the method `ParseAdbDevice`, which runs the same steps imperatively. Its loop assigns
      one map entry per feature token, as the `forEach` does.

    Lemmas give the accepted lines, the record's keys, the values of the feature tokens and
    the order in which they are applied.
  - The pipeline of `getConnectedDevices` is a pure function of the captured output:
    `Rows`, `KeepRows`, `ParseAll`, `SelectDevices`. Reading `.type` of the `null` returned
    for a rejected line is the error outcome `Err(TypeErrorReadingTypeOfNull)`.
- `device_examples.dfy`: concrete lines and outputs and what the model makes of them.

Three behaviours of the code are easy to misread, and the model follows the code in each.

- **Colons.** `rawFeature.split(':')` splits at every colon and keeps only the first two
  pieces. So `a:b:c` gives the value `b`, not `b:c`.
- **Position of the first row.** The first row is dropped by its position among all trimmed
  rows, empty rows included. It is not the first non-empty row. After a blank first line,
  the header reaches the parser.
- **Rejected rows.** A rejected row that reaches the type filter makes the call throw. The
  filter does not skip it (see Findings).

## Model

| member | source | states |
|---|---|---|
| `Devices.ParseAdbDevice` | lib/devices.js:3-23 | The imperative parser returns exactly what `Parse` specifies. This covers the two prefix checks, the whitespace split and the `type` check. Its loop assigns the feature tokens one by one; the loop invariant says the record so far is the first `i` assignments. |
| `Devices.ParseRejectsHeaderAndStatus` | lib/devices.js:4-9 | Any line that starts with `List of`, or with `*`, is rejected whatever follows. |
| `Devices.ParseAccepts` | lib/devices.js:4-15 | A line is accepted if and only if it starts with neither `List of` nor `*`, the whitespace split has a second token, and that token is exactly `device`. |
| `Devices.ParseSpaced` | lib/devices.js:4-21 | Take whitespace-free words (all but the first non-empty) joined by single spaces, where the line does not start with `List of` and the first word does not start with `*`. The words are then the tokens. The line is rejected when the second word is missing or is not `device`. Otherwise the record is the first word's record with the words after the second assigned as features. An empty first word stands for a leading space. |
| `Devices.ParseSeparated` | lib/devices.js:4-21 | The same holds for tokens separated by arbitrary non-empty runs of whitespace, such as the padding after the serial in real output. |
| `Devices.NotHeaderLine` | lib/devices.js:4-6 | A line of single-spaced words is caught by the `List of` check only if its first word is exactly `List`. Serials that merely start with `L` pass. |
| `Devices.ParseKeys` | lib/devices.js:17-21 | An accepted line's record has exactly the keys `id`, `type` and the key of each feature token. |
| `Devices.ParseIdAndType` | lib/devices.js:17-20 | `id` and `type` are always present. They hold the first token and `device` unless some feature token has the key `id` or `type`. |
| `Devices.ParseLastFeatureWins` | lib/devices.js:18-20 | For an accepted line, the last feature token that names a key decides that key's value. |
| `Devices.ParseTypeFilter` | lib/devices.js:32 | A record passes `device.type === 'device'` when no feature token sets `type`. Otherwise it passes if and only if the last `type:` token's value is `device`. |
| `Devices.FeatureEntryMeaning` | lib/devices.js:19 | The key is the text before the first `:` and contains no `:`. The value is the text between the first `:` and the next `:` or the end. A token without `:` is its own key and has no value (`undefined`). |
| `Devices.FeatureEntryOfPair` | lib/devices.js:19-20 | A token `key:value` with no other colon gives exactly that key and that value. |
| `Devices.FeatureEntryOfFlag` | lib/devices.js:19-20 | A token without `:` gives itself as key and no value. |
| `Devices.ApplyFeaturesKeys` | lib/devices.js:18-21 | The assignments add exactly the feature keys to the keys of the starting record. |
| `Devices.ApplyFeaturesUntouched` | lib/devices.js:18-21 | A key that no feature token names keeps its presence and its value. |
| `Devices.ApplyFeaturesLastWins` | lib/devices.js:18-21 | The assignments run left to right, so the last token that names a key decides its value. |
| `Devices.KeptIndices` | lib/devices.js:30 | Lists the positions of the rows that pass `row.length && index > 0`, in increasing order. A position is listed if and only if it is not 0 and its row is non-empty after trimming. |
| `Devices.KeepRowsPicks` | lib/devices.js:30 | The rows passed on are exactly the rows at those positions, each once, in their original order. |
| `Devices.SelectDevicesOutcome` | lib/devices.js:32 | The type filter throws if and only if some parse result is `null`. Otherwise it returns the records whose `type` is `device`, in order. |
| `Devices.ListedIndices` | lib/devices.js:30-32 | Lists, in increasing order, the positions whose rows would be listed: not position 0, non-empty, accepted by the parser, and of type `device`. |
| `Devices.ListedRecords` | lib/devices.js:30-32 | The list of the pipeline with rejected rows skipped is the records of the rows `ListedIndices` names, one per row, in the order of the rows. |
| `Devices.GetConnectedDevicesOutcome` | lib/devices.js:27-32 | `getConnectedDevices` throws if and only if some row at a position after 0 is non-empty after trimming and is rejected by the parser. When it returns, it returns the intended list. |
| `Devices.ConnectedDevicesIntendedRows` | lib/devices.js:27-32 | The list with rejected rows skipped holds the records of the listed rows, in order. |
| `JsString.SplitWhitespace` | lib/devices.js:11 | `split(/\s+/g)` gives at least one token. No token contains whitespace, and every token other than the first and the last is non-empty. The first token is empty if and only if the string is empty or starts with whitespace, and likewise the last token for the end. |
| `JsString.SplitWhitespaceLosesNothing` | lib/devices.js:11 | The tokens and the whitespace runs that were removed, interleaved, give back the input string. |
| `JsString.SplitWhitespaceOfInterleave` | lib/devices.js:11 | Splitting any interleaving of whitespace-free tokens with non-empty whitespace runs gives back exactly those tokens. |
| `JsString.SplitWhitespaceOfSpaced` | lib/devices.js:11 | Words without whitespace, joined by single spaces, split back into the same words. |
| `JsString.Split` | lib/devices.js:19 | `split(sep)` gives at least one piece, and no piece contains the separator. |
| `JsString.JoinSplit` | lib/devices.js:28 | Joining the pieces of `split(sep)` with `sep` gives back the string. |
| `JsString.SplitJoin` | lib/devices.js:19 | Splitting a join of separator-free pieces gives back the pieces. |
| `JsString.Trim` | lib/devices.js:29 | `trim()` gives a string whose first and last characters are not whitespace. |
| `JsString.TrimRemovesWhitespace` | lib/devices.js:29 | `trim()` removes only whitespace: the input is the result with a run of whitespace before it and another after it. |
| `JsString.TrimKeepsUnpadded` | lib/devices.js:29 | A string with no whitespace at either end is left unchanged. |
| `JsString.TrimIdempotent` | lib/devices.js:29 | Trimming twice is the same as trimming once. |
| `JsString.TrimEmpty` | lib/devices.js:29-30 | A row is empty after trimming if and only if it was all whitespace. |
| `DeviceExamples.EmulatorLine` | lib/devices.js:3-23 | `emulator-5554 device product:sdk_gphone_x86 model:sdk_gphone_x86 transport_id:1` gives a record with exactly these five properties. |
| `DeviceExamples.OfflineLineRejected` | lib/devices.js:13-15 | `emulator-5556 offline` is rejected. |
| `DeviceExamples.FlagWithoutValue` | lib/devices.js:19-20 | `dev1 device nestedflag` gives `nestedflag` with no value. |
| `DeviceExamples.ColonPieces` | lib/devices.js:19 | `a:b:c` gives key `a` and value `b`; `:x` gives the empty key. |
| `DeviceExamples.TypeOverwritten` | lib/devices.js:17-20 | `dev2 device type:usb` gives type `usb`, and that record fails the type filter. |
| `DeviceExamples.LeadingWhitespaceRejected` | lib/devices.js:11-15 | With a leading space, the id becomes the second token, so ` dev1 device` is rejected. The empty line is rejected too. |
| `DeviceExamples.LeadingSpaceDeviceId` | lib/devices.js:11-17 | A leading space rejects a line only because the id moves to the type position. When the id is itself `device`, the line ` device` is accepted with the empty id. |
| `DeviceExamples.PaddedPhysicalLine` | lib/devices.js:11-21 | `R58M31ABCDE` padded by a run of spaces, then `device transport_id:2`, gives the same record as the single-spaced line. |
| `DeviceExamples.TwoDevicesListed` | lib/devices.js:27-32 | The header, two device lines and a final line break give both records, in line order. |
| `DeviceExamples.OfflineLineThrows` | lib/devices.js:31-32 | Adding an offline line between the two device lines makes the call throw. With the `null` skipped, the two records would be listed. |
| `DeviceExamples.HeaderAfterBlankLine` | lib/devices.js:30 | After a blank first line the header reaches the parser, which rejects it, so the call throws. |

## Left out

- The `spawnSync('adb', ['devices', '-l'])` call and the decoding of its output buffer
  (lib/devices.js:1, 26-27) are process I/O. The model takes the decoded standard output
  as its input.
- When `adb` cannot be started, `adb.stdout` is `null` and `.toString()` throws. That
  depends on the environment and is not modelled.
- Strings are sequences of characters (Unicode scalar values), not UTF-16 code units. None
  of the whitespace characters lies outside the Basic Multilingual Plane, so the two views
  agree on every split and trim.
- The whitespace set follows ECMA-262 with the current Unicode space separators. An engine
  built on another Unicode version may differ for U+180E, which older versions counted as
  a space separator.
- A record is a map, so the insertion order of a JavaScript object's properties is not
  modelled. Prototype quirks are not modelled either: an own property named `__proto__`
  behaves like any other key here.
- The in-place object that `parseAdbDevice` mutates is a map value that the loop
  reassigns. No other code holds a reference to it before it is returned, so no aliasing
  is lost.
- Calling the listing twice on the same output gives equal results. This holds because
  `GetConnectedDevices` is a function of the output, so no lemma states it.

## Findings

| source | as written | input that shows it | evidently intended | confidence | as-written member | corrected member |
|---|---|---|---|---|---|---|
| lib/devices.js:31-32 | `.map(parseAdbDevice)` gives `null` for every rejected line, and the next filter reads `device.type` on it, which throws a `TypeError` | `List of devices attached`, `emulator-5554 device product:sdk_gphone_x86 model:sdk_gphone_x86 transport_id:1`, `emulator-5556 offline`, `R58M31ABCDE device transport_id:2`, each followed by a line break | the filter exists to drop what is not an online device: skip the `null`s and list the two devices, as `Devices.ConnectedDevicesIntended` does | high, not executed | `DeviceExamples.OfflineLineThrows` | `Devices.ConnectedDevicesIntendedRows` |
