# asic2mqtt: version normaliser and daemon decisions in Dafny

asic2mqtt polls cryptocurrency mining devices (Whatsminer and Antminer
ASICs) and republishes their telemetry to an MQTT broker. This project
models three parts of it.

- `parse_version_number` (antminer/utils.py) turns any firmware version
  string into a `major.minor.patch` triple and never fails. It splits the
  string on `.` and keeps only the digits of each segment. Segments with no
  digits are dropped, so later segments move up. The kept parts are cut or
  padded with `0` to three and handed to the semantic-version constructor.
  Every failure gives `0.0.0`. The model is in `version.dfy`.
- The console log level chosen by `setup_logging` (asic2mqtt.py), from the
  `-v` count and the configured level name. The model is in `daemon.dfy`.
- One pass of the daemon's device loop (asic2mqtt.py). It decides which
  configured devices are skipped and which topics get a message. The model
  is in `daemon.dfy`.

`text.dfy` holds the ASCII versions of the Python string built-ins these
parts use: `str.isdigit`, `str.split`, `str.join`, `str.upper`, `str.lower`
and the substring test `in`.

Modelling choices:

- The version input is an `Option<string>`, and `None` stands for Python's
  `None`.
- `ParseVersionNumber` keeps the source's loop that collects the numeric
  parts. It is proved equal to the function `Normalize`, and every
  per-case property is a lemma about `Normalize`.
- `semantic_version.Version(v)` is modelled by `LibraryVersion`. It accepts
  exactly three dot-separated runs of digits, none with a leading zero
  (Semantic Versioning 2.0.0, item 2), and keeps their values.
- The ping result and the two replies fetched from a device are inputs,
  one `Poll` per device. Each reply is its JSON text plus its Python
  truthiness.
- The MQTT publishes are returned as a list instead of being sent.
  `PollOnce` keeps the source's loop over the devices. It is proved equal
  to `RouteAll`, the concatenation of the per-device function `Route`.

When a digit-less segment is dropped, the later segments move up instead
of leaving a zero. For example, `"a.2.3"` drops `a`, keeps two parts (`2`
and `3`) and builds `"2.3.0"` (antminer/utils.py:32-33), so it gives 2.3.0.
`NormalizeShiftsAfterDroppedSegment` proves that value. The one-part case
is reached by inputs such as `"firmware-9"` or `"a.9"`.

## Model

| member | source | states |
|---|---|---|
| `VersionParse.ParseVersionNumber` | antminer/utils.py:4-44 | The method, with its loop that appends to `numeric_parts`, returns exactly `Normalize(version)`. |
| `Text.Digits` | antminer/utils.py:21 | The extracted part holds only digits. It is no longer than the segment. It is empty exactly when the segment has no digit, and a segment that is all digits is kept unchanged. |
| `Text.DigitsOfChar` | antminer/utils.py:21 | A single character contributes itself when it is a digit and nothing otherwise. |
| `Text.DigitsAppend` | antminer/utils.py:21 | The digits of a concatenation are the digits of each half, in order. With `DigitsOfChar`, this fixes the result on every string, for example `"v12"` gives `"12"`. |
| `Text.Split` | antminer/utils.py:16 | `str.split` on one separator character returns at least one segment, and no segment contains the separator. |
| `Text.Join` | antminer/utils.py:31 | `str.join` starts with the first part, and it is at least as long as the first part plus one separator for each later part. |
| `Text.Upper` | asic2mqtt.py:33 | `str.upper` keeps the length, leaves no lower-case letter, and changes nothing but letter case at each position. |
| `Text.Lower` | asic2mqtt.py:210 | `str.lower` keeps the length, leaves no upper-case letter, and changes nothing but letter case at each position. |
| `Text.Contains` | asic2mqtt.py:210 | The substring test `t in s` holds only when `t` is no longer than `s`, and holds whenever `s` starts with `t`. |
| `Text.ContainsFromOffset` | asic2mqtt.py:210 | If `t` occurs in `s` at some offset, the substring test holds. |
| `Text.ContainsGivesOffset` | asic2mqtt.py:210 | If the substring test holds, there is an offset in `s` where `t` occurs. With `ContainsFromOffset`, `Contains` is exactly "occurs at some offset". |
| `Text.JoinSplit` | antminer/utils.py:16 | Joining the segments of a split with the separator restores the input, so no character is lost or added by splitting. |
| `Text.SplitJoin` | antminer/utils.py:31 | Splitting the dot-join of dot-free parts returns the same parts. |
| `Text.SplitChars` | antminer/utils.py:16 | Every character of every segment comes from the input and is not the separator. |
| `VersionParse.NumericParts` | antminer/utils.py:17-23 | Every kept part is a non-empty run of digits, and no more parts are kept than there are segments. |
| `VersionParse.NumericPartsAppend` | antminer/utils.py:19-23 | Filtering goes segment by segment and keeps the order: the parts of a concatenation are the parts of each half, in order. |
| `VersionParse.NumericPartsEmpty` | antminer/utils.py:22-23 | No part is kept exactly when no segment contains a digit. Digit-less segments are dropped, not replaced by zero. |
| `VersionParse.Assemble` | antminer/utils.py:29-38 | Each arity branch builds the dot-join of the parts cut or padded with `"0"` to exactly three. |
| `VersionParse.Value` | antminer/utils.py:41 | The value of a run of `n` digits is below `10^n`, and it is at least 1 when the first digit is not `0`. |
| `VersionParse.DecimalOfValue` | antminer/utils.py:41 | A numeral without a leading zero is exactly the decimal text of its own value, so no two canonical numerals have the same value. |
| `VersionParse.LibraryVersion` | antminer/utils.py:41 | The semantic-version constructor accepts exactly three dot-separated canonical numerals and keeps their values. Its properties are stated by `LibraryVersionCanonical`, `LibraryVersionOfNumerals` and `LibraryVersionOfFormat`. |
| `VersionParse.LibraryVersionCanonical` | antminer/utils.py:41 | Every string the constructor accepts is exactly the `major.minor.patch` print of the version it returns. |
| `VersionParse.LibraryVersionOfNumerals` | antminer/utils.py:40-44 | The constructor accepts three numerals exactly when none has a leading zero, and then keeps their values in order. Otherwise it rejects them. |
| `VersionParse.LibraryVersionOfFormat` | antminer/utils.py:41 | The constructor reads back every version printed as `major.minor.patch`. |
| `VersionParse.Normalize` | antminer/utils.py:4-44 | The whole function on values. Any result other than 0.0.0 comes from a present input that contains at least one digit. |
| `VersionParse.NormalizeKeptParts` | antminer/utils.py:29-44 | With at least one kept part, the result is the triple of the first three parts padded with zeros: their values when all three are canonical, and 0.0.0 otherwise. |
| `VersionParse.NormalizeEmpty` | antminer/utils.py:12-13 | A missing (`None`) or empty input gives 0.0.0. |
| `VersionParse.NormalizeNoDigits` | antminer/utils.py:26-27 | An input with no digit anywhere, such as `"abc"`, gives 0.0.0. |
| `VersionParse.NormalizeThreeParts` | antminer/utils.py:30-31 | Three kept parts become major, minor and patch in order. A leading zero in any of them gives 0.0.0. |
| `VersionParse.NormalizeTwoParts` | antminer/utils.py:32-33 | Two kept parts become major and minor in order, and patch is 0. A leading zero in either gives 0.0.0. |
| `VersionParse.NormalizeMoreThanThreeParts` | antminer/utils.py:34-35 | With more than three kept parts, only the first three are used, in order. |
| `VersionParse.NormalizeIgnoresTrailingSegments` | antminer/utils.py:34-35 | Once three parts are kept, appending `"." + extra` for any `extra` does not change the result. |
| `VersionParse.NormalizeOnePart` | antminer/utils.py:36-38 | One kept part becomes major, wherever it stood in the input, and minor and patch are 0. A leading zero gives 0.0.0. |
| `VersionParse.NormalizeLeadingZero` | antminer/utils.py:40-44 | A leading zero in any of the first three kept parts makes the constructor fail. The function then returns 0.0.0 instead of raising. |
| `VersionParse.NormalizeFormat` | antminer/utils.py:29-41 | Round trip: parsing `"M.m.p"` printed without leading zeros returns the same triple. |
| `VersionParse.NormalizeShiftsAfterDroppedSegment` | antminer/utils.py:16-33 | `"a.2.3"` gives 2.3.0: the dropped segment moves the later parts up instead of leaving a zero. |
| `VersionParse.NormalizeStripsLetters` | antminer/utils.py:16-31 | `"v1.2.3"` gives 1.2.3: the letter is removed from its segment, and the segment's digit is kept in place. |
| `Asic2Mqtt.ConsoleLevel` | asic2mqtt.py:23-40 | Any `-v` gives a level other than ERROR. With no `-v` and no configured `level`, the level is ERROR. With no `-v`, any other level is the one whose name equals the upper-cased configured name. |
| `Asic2Mqtt.VerboseLevels` | asic2mqtt.py:23-30 | One `-v` gives WARNING, two give INFO, and three or more give DEBUG, whatever the configuration says. |
| `Asic2Mqtt.MoreVerboseShowsMore` | asic2mqtt.py:25-30 | From one `-v` upward, a higher count never raises the console threshold. |
| `Asic2Mqtt.FirstVerboseCanQuiet` | asic2mqtt.py:23-40 | A first `-v` ignores the configured level and gives WARNING. With DEBUG or INFO configured, the console is then quieter than with no `-v`. |
| `Asic2Mqtt.ConfiguredLevel` | asic2mqtt.py:31-40 | With no `-v`, the level is DEBUG, INFO or WARNING exactly when the upper-cased configured name is that name. Otherwise it is ERROR, including when no level is configured or the name is unknown. |
| `Asic2Mqtt.ConfiguredLevelIgnoresCase` | asic2mqtt.py:33 | Two configured names that upper-case alike select the same level. |
| `Asic2Mqtt.LevelNameSelects` | asic2mqtt.py:33-40 | Configuring a level by its own name selects that level. |
| `Asic2Mqtt.ModelOf` | asic2mqtt.py:210-228 | The Whatsminer branch is taken exactly when the lower-cased name contains "whatsminer". The Antminer branch is taken only when the lower-cased name contains "antminer". |
| `Asic2Mqtt.Route` | asic2mqtt.py:192-243 | One device gets at most two messages, and any message at all means the device has an ip, answered the ping and has a recognised model name. |
| `Asic2Mqtt.IncompleteDeviceSkipped` | asic2mqtt.py:198-200 | A device whose ip or topic is missing or empty gets no publish. |
| `Asic2Mqtt.UnreachableDeviceSkipped` | asic2mqtt.py:203-205 | A device that fails the ping gets no publish. |
| `Asic2Mqtt.ModelByName` | asic2mqtt.py:210-228 | A name containing "whatsminer" in any case takes the Whatsminer branch, even if it also contains "antminer". The Antminer branch is taken exactly when only "antminer" occurs, a name with neither gets neither branch, and letter case never matters. |
| `Asic2Mqtt.RouteTopics` | asic2mqtt.py:192-243 | A topic gets a message exactly when the device is configured, reachable and recognised, and the topic is `topic/summary` or `topic/edevs` (Whatsminer) or `topic/stats` or `topic/devs` (Antminer) with a truthy reply behind it. |
| `Asic2Mqtt.RouteMessages` | asic2mqtt.py:216-241 | A message `m` goes to topic `t` exactly when the device is configured, reachable and recognised and either `t` is the first suffix topic with `m` the truthy first reply, or `t` is the second suffix topic with `m` the truthy second reply. Each reply goes only to its own topic. |
| `Asic2Mqtt.RouteOrder` | asic2mqtt.py:216-241 | When both replies are sent, the route is exactly the first reply on the first topic (`topic/summary` or `topic/stats`) followed by the second reply on the second topic (`topic/edevs` or `topic/devs`). |
| `Asic2Mqtt.FailedFetchPublishesNothing` | asic2mqtt.py:106-243 | When both replies are not truthy, which is what a failed fetch returns (`None, None`), the device gets no message. |
| `Asic2Mqtt.RoutePublishesOnce` | asic2mqtt.py:198-241 | A device that passes every test gets exactly one publish per truthy reply, and any other device gets none. No reply is published twice. |
| `Asic2Mqtt.RouteAll` | asic2mqtt.py:192-245 | One pass sends at most two messages per configured device. |
| `Asic2Mqtt.RouteAllConcat` | asic2mqtt.py:192-245 | The publishes of a pass over two lists of devices, one after the other, are those of the first list followed by those of the second. Configuration order is kept. |
| `Asic2Mqtt.PollOnce` | asic2mqtt.py:192-245 | The loop over the configured devices issues exactly the per-device publishes, in configuration order. |
| `Asic2Mqtt.RouteAllTopics` | asic2mqtt.py:192-245 | A pass publishes to a topic exactly when the routing of some single device does. Skipped devices add nothing, and no message appears from nowhere. |

## Left out

- Unicode: `str.isdigit`, `str.upper` and `str.lower` are modelled on ASCII only. Python also counts digits such as `'²'` or full-width `'１'`, and maps letters such as `'ı'` to `'I'`; the model does not.
- `semantic_version` internals: `LibraryVersion` models only what the parser can pass it. Pre-release and build suffixes are never produced, so they are not modelled (the model rejects them).
- VersionParse.LibraryVersion: does not model CPython's default limit of 4300 digits for `int()` (`sys.set_int_max_str_digits`). A longer numeral makes the library raise, and the function then returns 0.0.0, while the model returns its value.
- A version argument that is not a string is not modelled. A falsy one (`0`, `[]`, `{}`) returns 0.0.0 at antminer/utils.py:12-13, as `None` does, and a truthy one makes Python raise on `split`.
- Version ordering (comparison operators) comes from the version library and is not part of this model.
- The `ping` subprocess (asic2mqtt.py:87-103) is process I/O. Its answer is the input `Poll.reachable`.
- The vendor clients `WhatsminerAPI`, `WhatsminerAccessToken` and `BaseClient` (asic2mqtt.py:106-145) make network calls. Their replies are the inputs `Poll.first` and `Poll.second`. If either call of a device's fetch raises, `get_whatsminer_data` or `get_antminer_data` returns `None` for both replies, so both are given as not truthy and the device publishes nothing (`FailedFetchPublishesNothing`). A reply returned empty is not truthy on its own.
- Asic2Mqtt.Route: does not model an exception raised anywhere inside a vendor branch (asic2mqtt.py:212-226 and 230-243). Examples are `WhatsminerAccessToken` failing, `json.dumps` failing on a reply it cannot serialise, and the MQTT client's `publish` raising `ValueError` for a topic containing `+` or `#`. In Python the `except` then skips every remaining publish of that device, including both when it happens before the first. The model publishes every truthy reply.
- Non-string configuration values: a configured `ip` or `topic` that is not a string (for example `"ip": 0`, which is falsy) cannot be expressed by `Option<string>` and is not modelled.
- The log records the loop writes for each device (asic2mqtt.py:199, 204, 207, 219, 224, 226, 236, 241, 243), and those of the fetch helpers (asic2mqtt.py:108-120, 126-144), are logging side effects. They are not modelled.
- The MQTT client's connect, publish and disconnect, and JSON serialisation (asic2mqtt.py:176-186, 254), are a foreign library. The JSON text of a reply is an input.
- The `username` and `password` read at asic2mqtt.py:195-196 do not affect which topics get messages, and are not modelled.
- Configuration loading and `CONFIG_PATH` (asic2mqtt.py:67-84), and logger, formatter and file-handler setup (asic2mqtt.py:42-62), are filesystem I/O and library setup. A configured `level` that is not a string (Python raises on `upper`) is not modelled.
- The endless `while True` loop, `time.sleep` and `KeyboardInterrupt` handling (asic2mqtt.py:190, 245-251): one pass over the device list is modelled, not the daemon's lifetime.
- The test scripts (test_*.py) talk to real devices, spawn subprocesses, read files or print. They are not modelled.
