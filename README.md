# esp8266fs: the decision core of the SPIFFS upload extension

`esp8266fs.js` is a VS Code extension. It packs the `data` folder of an
Arduino sketch into a SPIFFS image with `mkspiffs`. It then sends the image
to an ESP8266 over serial with `esptool`, or over the network with
`espota.py`. Around its I/O sits a deterministic core, and this project
models that core in Dafny:

- **`readLines`**: the reader of `preferences.txt` (`getArduinoPreferences`).
  Its line separator class `[\r\n|\r|\n]` also contains `|`.
- **`configuration` merge**: how `getArduinoJson` merges the
  `configuration` string of `arduino.json`.
- **Target choice**: `_getTarget`/`getTarget`.
- **Memory configuration**: `_getMemoryConfiguration`, both as written and as
  evidently intended.
- **Board scan**: the scan of `boards.txt` in `getEsp8266spiffs`, with its
  required keys and overrides.
- **Small helpers**: `program`, the folder rule of `getToolPath`, `getPort`,
  `isIP`, `stringToInt`, `toHex` and `makeOsPath`.
- **Argument lists**: the arithmetic and argument lists of `packFiles`,
  `upload` and `uploadOTA`, and the choice between network and serial upload.

The JavaScript values are modelled as follows:

- `undefined` is `Option.None`.
- A thrown message is `Result.Err` with one `Error` constructor per message.
- A JavaScript number is an unbounded `int`, and `NaN` is `None`.
- A parsed settings object is a `map<string, Option<string>>`.
- File contents, directory listings, the set of existing files and the OS
  name are parameters.
- The three `forEach` loops that fill an object are methods with `while`
  loops:
  - the preferences (`Readers.ReadPreferences`);
  - the `configuration` merge (`Readers.MergeConfiguration`);
  - the `boards.txt` scan (`Boards.ScanBoards`).

  Each is proved equal to a fold with "last assignment wins" semantics
  (`Dict.Fold`). The lemmas of `Dict` give that fold's laws.

Modules:

- `Wrappers`: `Option`, `Result`, `Error`.
- `Strings`: character classes, `split`/`join` and their round trips.
- `Dict`: the fold.
- `Readers`, `Targets`, `Boards`, `Helpers`, `Numbers`, `Commands`: the
  core itself.

## Model

| member | source | states |
|---|---|---|
| Strings.Split | esp8266fs.js:167 | `split` on a character class gives at least one piece, and no piece holds a separator. There is exactly one piece iff the text has no separator. |
| Strings.SplitHead | esp8266fs.js:368 | The first piece of a split is a prefix of the text, and a separator follows it unless it is the whole text. |
| Strings.SplitTail | esp8266fs.js:368 | After the first piece and its separator, the remaining pieces are the split of the rest. |
| Strings.JoinSplit | esp8266fs.js:167 | Joining the pieces with the only separator the text uses gives the text back. |
| Strings.SplitJoin | esp8266fs.js:167 | Splitting separator-free pieces joined by a separator gives the pieces back. |
| Strings.NonSpacePrefix | esp8266fs.js:442 | A greedy `\S*` run: a blank-free prefix followed by a blank or the end. |
| Dict.FoldStep | esp8266fs.js:363-373 | One more element of the `forEach` is one more assignment to the object. |
| Dict.FoldUntouched | esp8266fs.js:363-373 | A key that no element assigns keeps its initial presence and value. |
| Dict.FoldLastWins | esp8266fs.js:363-373 | A key ends with the value of the last element that assigns it. |
| Dict.FoldKeys | esp8266fs.js:363-373 | Every key of the result was there initially or is assigned by some element. |
| Dict.FoldKeepsKeys | esp8266fs.js:383-388 | Assignments never remove a key, so the merge keeps every field of the file. |
| Dict.FoldValueFrom | esp8266fs.js:363-373 | A present key holds its initial value or the value of some element that assigns it. |
| Dict.FoldOfListing | esp8266fs.js:363-373 | Assigning each key of an object exactly once, starting from `{}`, builds that object. |
| Readers.ReadLines | esp8266fs.js:166-168 | At least one line, and no line holds `\r`, `\n` or `\|`. |
| Readers.ReadLinesOfJoined | esp8266fs.js:166-168 | Lines free of `\r`, `\n` and `\|`, joined with `\n` and read back, are the same lines. |
| Readers.JoinedReadLines | esp8266fs.js:166-168 | A text without `\r` or `\|` is its lines joined with `\n`. |
| Readers.PipeEndsLine | esp8266fs.js:167 | `a=b\|c=d` reads as the two lines `a=b` and `c=d`. |
| Readers.KeyValue | esp8266fs.js:368-371 | `pair[0]` is the text before the first `=`. `pair[1]` is `undefined` iff the line has no `=`. Otherwise it is the `=`-free text after the first `=`, ending at the second `=` or the end of the line. |
| Readers.ValueAfterKey | esp8266fs.js:368-371 | `pair[1]` follows `pair[0]` and its `=` in the line, and ends at the next `=` or at the end of the line. |
| Readers.PreferenceEntries | esp8266fs.js:365-371 | A line assigns nothing iff it is empty or starts with `#`. Every other line assigns its own key/value pair. |
| Readers.PreferencesOf | esp8266fs.js:363-375 | Every key/value pair can be carried by one line. No key holds `=` or a line break (`\r`, `\n`, `\|`), and no key starts with `#`. A key whose value is `undefined` is not empty. No value holds `=` or a line break. |
| Readers.PreferenceLineClean | esp8266fs.js:365-371 | The pair that a non-empty, non-`#` line without line breaks assigns can be carried by one line. |
| Readers.PreferencesClean | esp8266fs.js:363-373 | Every key/value pair built from lines without line breaks can be carried by one line. |
| Readers.ReadPreferences | esp8266fs.js:356-376 | The loop builds exactly the fold of the per-line assignments over `readLines` of the text. |
| Readers.PreferencesLastLineWins | esp8266fs.js:363-373 | A key gets the value from the last preference line carrying that key. |
| Readers.PreferencesKeyHasLine | esp8266fs.js:363-373 | Every key comes from a line that is neither empty nor a `#` line. |
| Readers.PreferenceLineRoundTrip | esp8266fs.js:365-371 | A clean pair written as `k=v`, or as `k` for `undefined`, is a preference line that splits back into exactly `k` and `v`. |
| Readers.PreferenceLinesRead | esp8266fs.js:363-371 | Written-out lines joined with `\n` are read back as the same lines, and each one assigns its own key/value pair. |
| Readers.PreferencesOfEmpty | esp8266fs.js:363-373 | The empty text gives the empty preferences object. |
| Readers.PreferencesRoundTrip | esp8266fs.js:363-375 | A clean object written out one key per line, with each key listed once, is read back as the same object. |
| Readers.PreferencesIdempotent | esp8266fs.js:363-375 | Parsing is idempotent. Writing out the object parsed from any text and parsing it again gives the same object. |
| Readers.ConfigOfJson | esp8266fs.js:381 | The parsed file has the same keys as the JSON object, each with its string value. |
| Readers.ConfigurationEntries | esp8266fs.js:384-386 | Every `,`-separated item assigns its `=`-split pair. |
| Readers.MergeConfiguration | esp8266fs.js:383-389 | The merge loop builds exactly the fold of the items over the parsed file, and only when `configuration` is truthy. |
| Readers.ProjectConfigOf | esp8266fs.js:381-389 | Every field of the parsed file is still present after the merge. |
| Readers.ConfigurationItemOverrides | esp8266fs.js:384-388 | The last item naming a key overrides the top-level field. |
| Readers.FieldNotInConfigurationKept | esp8266fs.js:384-388 | A field that no item names keeps its presence and its value from the file. |
| Targets.GetTarget | esp8266fs.js:421-431 | Succeeds iff package and architecture are both `esp8266`, returning `_getTarget`'s target. Otherwise throws the not-ESP8266 error. |
| Targets.TargetOfBoardString | esp8266fs.js:407-415 | A `board` value `a:b:c` gives exactly the fields `a`, `b`, `c`. |
| Targets.TargetOf | esp8266fs.js:395-417 | Without a truthy `board`, the fields are `target_package`, `target_platform` and `board` from the preferences. With one, the package is always defined and is a prefix of it, the architecture is `undefined` iff it has no `:`, and no field holds `:`. |
| Targets.GetTargetNodemcu | esp8266fs.js:421-431 | `esp8266:esp8266:nodemcu` is accepted with board `nodemcu`. |
| Targets.GetTargetAvr | esp8266fs.js:421-431 | `avr:avr:uno` is rejected. |
| Targets.MemoryConfiguration | esp8266fs.js:435-449 | A success is always the truthy `FlashSize`, and every failure is the flash-size error. |
| Targets.LiteralPatternMatch | esp8266fs.js:442 | The regular-expression literal on that line, with `$` as end of input and its `.` matching any character, matches no string. |
| Targets.MemoryConfigurationIsFlashSize | esp8266fs.js:435-449 | A truthy `FlashSize` is returned unchanged. Without one the call throws, whatever `custom_FlashSize` holds. |
| Targets.MemoryConfigurationIgnoresPreference | esp8266fs.js:439-448 | With `custom_FlashSize` = `nodemcuv2_4M1M` and no `FlashSize`, the call throws. |
| Targets.IntendedMemoryConfiguration | esp8266fs.js:435-448 | A truthy `FlashSize` is returned. Otherwise the intended fallback succeeds iff `custom_FlashSize` starts with `<board>_` and a non-blank character follows, and then returns the whole blank-free run after the prefix. Every failure is the flash-size error. |
| Targets.IntendedMemoryConfigurationExample | esp8266fs.js:439-448 | The intended fallback reads `nodemcuv2_4M1M` for board `nodemcuv2` as `4M1M`. |
| Boards.LastEquals | esp8266fs.js:480 | The last `=` in a range, or none when the range has no `=`. |
| Boards.Groups | esp8266fs.js:480 | `(\S+)=(\S+)` at the start of a text: blank-free non-empty groups, with no `=` in the value except as its last character, and a value that reaches a blank or the end. There is no match iff the leading blank-free run has no `=` with a character on each side. |
| Boards.MatchAt | esp8266fs.js:480-481 | A match at a position is the prefix followed by groups of that shape. There is none iff the prefix does not occur there or no `=` with a character on each side follows it in the blank-free run. |
| Boards.GroupsAtOfGroups | esp8266fs.js:480-481 | Groups read right after the prefix are groups the pattern can return at that position. |
| Boards.Search | esp8266fs.js:480-481 | An unanchored match is the match at the leftmost position that matches, and its absence means no position matches. |
| Boards.BoardEntry | esp8266fs.js:480-481 | A line assigns nothing iff neither pattern matches at any position. A match is the leftmost match of the first pattern. Only when the first pattern matches nowhere is it the leftmost match of the `menu.FlashSize` pattern. |
| Boards.GroupsOfPair | esp8266fs.js:480 | A blank-free `k=v` with a single `=` has groups `k` and `v`. |
| Boards.BoardEntryOfKindLine | esp8266fs.js:480 | A line `<board>.build.k=v` or `<board>.upload.k=v` assigns `v` to `k`. |
| Boards.KindMatchAtStart | esp8266fs.js:480-481 | `<stem>.build.k=v` and `<stem>.upload.k=v`, blank-free with one `=`, match `<stem>` at their start with groups `k` and `v`. |
| Boards.UploadMatchAtStart | esp8266fs.js:480-481 | For `.upload.` the `build` alternative fails and the `upload` one matches. |
| Boards.FirstPatternAbsent | esp8266fs.js:480 | A line holding neither `<board>.build.` nor `<board>.upload.` does not match the first pattern. |
| Boards.BoardEntryOfMenuLine | esp8266fs.js:481 | A line `<board>.menu.FlashSize.<config>.build.k=v` (or `.upload.`) assigns `v` to `k` when the first pattern finds nothing in it. |
| Boards.ScanBoards | esp8266fs.js:476-485 | The scan loop builds exactly the fold of the per-line matches. |
| Boards.GetEsp8266Spiffs | esp8266fs.js:463-504 | The method returns exactly the specification value: the folder checks, the scan, the required-key checks, then the overrides. |
| Boards.ScanLastMatchWins | esp8266fs.js:478-485 | A key gets the value of the last matching line in file order. |
| Boards.ScanKeyHasLine | esp8266fs.js:478-485 | Every key of `spiffs` comes from a line matching one of the two patterns. |
| Boards.Overrides | esp8266fs.js:494-498 | A truthy `UploadSpeed` sets `speed` and a truthy `ResetMethod` sets `resetmethod`. Without them those keys are unchanged, and every other key is unchanged. |
| Boards.Esp8266SpiffsOf | esp8266fs.js:463-498 | Succeeds iff there is one version folder and both offsets are truthy; the result is the scan with the overrides, holding both offsets as scanned. The errors come in source order. |
| Helpers.Program | esp8266fs.js:508-512 | `.exe` is appended exactly on win32 to a name without `.`. Otherwise the name is unchanged. |
| Helpers.ProgramIdempotent | esp8266fs.js:508-512 | Applying `program` twice equals applying it once. |
| Helpers.GetToolPath | esp8266fs.js:516-535 | Succeeds iff the tool directory exists, holds exactly one version folder, and the program file in it exists; the result is that file. A missing directory, a folder count other than one and a missing program file each give their own error, the last naming the file. |
| Helpers.GetToolPathOneVersion | esp8266fs.js:522-533 | One version folder `2.5.0-4-b40a1b0` resolves to `tools/mkspiffs/2.5.0-4-b40a1b0/mkspiffs` when that file exists. |
| Helpers.GetToolPathNotOneVersion | esp8266fs.js:522-525 | Zero or two version folders are refused, naming the tool. |
| Helpers.GetPort | esp8266fs.js:551-556 | A truthy project `port` wins; otherwise the preference `serial.port` is used. |
| Helpers.DottedQuadIsIP | esp8266fs.js:560-562 | Every dotted quad of decimal numbers is an IP. |
| Helpers.IsIP | esp8266fs.js:560-562 | An accepted port starts and ends with a digit, contains `.`, and is at least 7 characters long. |
| Helpers.DottedQuadExample | esp8266fs.js:560-562 | `192.168.1.5` is accepted. |
| Helpers.UnescapedDotExample | esp8266fs.js:560-562 | `1.23456` is accepted, since two of the `.` in the pattern are unescaped. |
| Helpers.SerialExamples | esp8266fs.js:560-562 | `COM6` and `/dev/ttyUSB0` are not accepted. |
| Helpers.MakeOsPath | esp8266fs.js:578-585 | The result holds no `\`; every `\` becomes `/` and each other character is kept in place. It is wrapped in double quotes exactly when the input holds a space. |
| Numbers.TrimStartSuffix | esp8266fs.js:567 | `parseInt`'s white-space trim leaves a suffix that does not start with white space. |
| Numbers.DigitsPrefixLongest | esp8266fs.js:567 | `parseInt` reads the longest prefix of digits of the radix. |
| Numbers.ParseInt | esp8266fs.js:567 | A number is read only from a text holding a digit of the radix, and a negative one only from a text holding `-`. |
| Numbers.StringToInt | esp8266fs.js:566-568 | Throws iff the value is `undefined`, with the undefined-value error. |
| Numbers.StringToIntDecimal | esp8266fs.js:566-568 | A non-empty decimal digit string reads as its decimal value. |
| Numbers.StringToIntHex | esp8266fs.js:566-568 | `0x`/`0X` followed by hexadecimal digits reads as their hexadecimal value. |
| Numbers.DefaultPageSize | esp8266fs.js:602 | The default page size `"256"` reads as 256. |
| Numbers.DefaultBlockSize | esp8266fs.js:603 | The default block size `"4096"` reads as 4096. |
| Numbers.HexOf | esp8266fs.js:573 | `toString(16)` gives non-empty lower-case hexadecimal digits whose value is the number, with one digit iff the number is below 16, and a leading `0` only for 0. |
| Numbers.ValueOfConcat | esp8266fs.js:573 | The value of concatenated digit strings is the place-value sum of their values. |
| Numbers.LeadingZeros | esp8266fs.js:573 | Leading zeros do not change the value of a digit string. |
| Numbers.PaddedSlice | esp8266fs.js:573 | For `h` of at most `width` characters and `width <= 6`, the last `width` characters of `"00000" + h` are zeros followed by `h`. |
| Numbers.PaddedValue | esp8266fs.js:573 | Those characters read as the value of `h`. |
| Numbers.ToHex | esp8266fs.js:572-574 | For `1 <= width <= 6` the result has exactly `width` characters, and it holds no lower-case letter. |
| Numbers.ToHexRoundTrip | esp8266fs.js:572-574 | For `0 <= n < 16^width`, `width <= 6`, `toHex` gives exactly `width` digits, and `stringToInt` reads them back, after `0x`, as `n`. |
| Numbers.ToInt32 | esp8266fs.js:601 | The 32-bit conversion `>>` applies lies in the signed range, is congruent to the input modulo 2^32, and is the identity on that range. |
| Numbers.ShiftRight10 | esp8266fs.js:601 | `x >> 10` is the floor of the 32-bit value divided by 1024, lies in `[-2^21, 2^21)`, and is `size / 1024` for a size in `[0, 2^31)`. |
| Numbers.ShiftRight10Edges | esp8266fs.js:601 | `-1 >> 10` is -1, `2^31 >> 10` wraps to `-2^21`, and `NaN >> 10` is 0. |
| Commands.GeometryOf | esp8266fs.js:600-603 | Fails iff an offset is `undefined`. The size is `stringToInt(end) - stringToInt(start)`. Page and block are read from their keys, or are 256 and 4096 when those are missing or empty. |
| Commands.PackCommand | esp8266fs.js:612-620 | The `mkspiffs` argument list `-c data -p page -b block -s size image`, element by element. |
| Commands.PackFiles | esp8266fs.js:599-621 | Fails iff the geometry does. The command is the `mkspiffs` list with all three paths passed through `makeOsPath`. |
| Commands.PackedSizeOfHexOffsets | esp8266fs.js:600 | With `0x` offsets the image size is the difference of their hexadecimal values. |
| Commands.HexOffsetsDifference | esp8266fs.js:600 | `stringToInt(end) - stringToInt(start)` for offsets `0x<start>` and `0x<end>` is the difference of their hexadecimal values. |
| Commands.HexOffset | esp8266fs.js:566-568 | An offset `0x<h>` reads as the hexadecimal value of `h`. |
| Commands.PackExample | esp8266fs.js:600-603 | Offsets `0x100000`/`0x300000` give a 0x200000-byte image, 2048K, page 256 and block 4096. |
| Commands.UploadCommand | esp8266fs.js:655-663 | The `esptool` argument list `-ca address -cd reset -cp port -cb speed -cf image`, element by element. |
| Commands.Upload | esp8266fs.js:643-664 | Fails iff `spiffs_start` or `speed` is `undefined`. Otherwise the `esptool` list is built from their `stringToInt` values, `resetmethod` and the port, with the tool and image through `makeOsPath`. |
| Commands.UploadOTA | esp8266fs.js:625-639 | The `python` command `espota -i port -s -f image`, element by element, with every path through `makeOsPath`. |
| Commands.TransportOf | esp8266fs.js:690-695 | `isIP(undefined)` throws. Otherwise the upload goes over the network iff `isIP` accepts the port, and over serial iff it does not. |
| Commands.TransportRouting | esp8266fs.js:690-695 | `192.168.1.5` and `1.23456` are network ports, whose tool is `espota.py`. `COM6` and `/dev/ttyUSB0` are serial ports, whose tool is `esptool`. |

## Left out

- File system and environment probing are not part of this model, because they are I/O: `readFile`, `dirExists`, `fileExists`, `getFolders`, `getArduinoInstallPath`, `getArduinoPath`, `getPreferencesPath`, `getDataFilesPath`, `getTempPath`, `getSystemTempPath`, `getSpiffsFile` and `getToolsPath`. Their results (file text, directory listings, existing files) are parameters instead.
- `getRegistryValue` is not part of this model. It wraps the `winreg` library.
- `runCommand` and the process spawn are left out, because they are process I/O. The commands are modelled as values handed to it. Two defects in it stay unmodelled: it throws the undefined name `error` (line 112), and its non-global `replace` only rewrites the first `\r\n` (line 116).
- The orchestration in `_uploadFsData` (lines 668-709) is modelled only as its transport choice (`Commands.TransportOf`). The OTA branch cannot run as written: under strict mode it assigns the undeclared `espota` (lines 688 and 693), and it passes the undefined `serialPort` and `imagePath` (line 706).
- The `locked` re-entrancy guard of `uploadFsData` is left out. It only serialises asynchronous UI-triggered runs.
- Logging, ANSI colours, `JSONify`, the vscode configuration, the output channel and `activate` are left out, as UI plumbing. The `toHex` call in `upload` only feeds a log line, so `toHex` is modelled with its round trip but not wired into a command.
- `JSON.parse` is left out. The project file arrives as an already-parsed object whose fields are strings. Non-string JSON values (numbers, booleans, nested objects) are not modelled.
- Numbers.ParseInt: JavaScript numbers are IEEE doubles, and the model uses unbounded integers, so digit strings whose value exceeds 2^53 are not rounded as `parseInt` would round them.
- Numbers.ParseInt: only radix 10 and 16 are modelled, the only ones `stringToInt` uses.
- Boards.BoardEntry: the board name and the memory configuration are spliced into the pattern unescaped in the source. The model treats them literally, so a regular-expression metacharacter in them (a `.` matching any character, say) is not interpreted.
- Helpers.IsIP: strings are sequences of Unicode scalar values, while JavaScript's regular expressions without the `u` flag work on UTF-16 code units. A character outside the Basic Multilingual Plane is one character for the model's `.` but two code units in JavaScript. For example, `1.2\u{1F600}3.4` is accepted by the model and rejected by the source, so such a port is routed to the network rather than to serial.
- Numbers.StringToInt: the radix choice is stated through `Numbers.StringToIntDecimal` and `Numbers.StringToIntHex` for digit strings rather than in its own contract.
- Numbers.ToUpper: upper-cases ASCII letters only, which covers every character `toHex` produces. Full Unicode case mapping is not modelled.
- Helpers.JoinPath: `path.join` is modelled as concatenation with the OS separator. Normalisation of `..`, `.` and repeated separators is not modelled.
- Commands.Arg: the source passes numbers, `NaN` and `undefined` in the argument array. The model keeps them as typed values (`Number`, `Undefined`) rather than modelling how the spawn call turns them into strings.

## Findings

| source | as written | input that shows it | evidently intended | confidence | as-written member | corrected member |
|---|---|---|---|---|---|---|
| esp8266fs.js:442 | `flashSize.match(/^${target.board}_(\S+)/)` is a regular-expression literal, so nothing is interpolated. `$` asserts the end of the input right after `^`, which makes the fallback unmatchable. | No `FlashSize` in the project, `custom_FlashSize` = `nodemcuv2_4M1M`, board `nodemcuv2`: the call throws "Can't determine Flash Size." | Strip the `<board>_` prefix and return the blank-free rest (`4M1M`). | high (not executed) | Targets.MemoryConfigurationIgnoresPreference | Targets.IntendedMemoryConfiguration |
