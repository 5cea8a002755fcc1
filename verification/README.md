# A verified model of the FLIR Spinnaker camera driver node

This project models the core of the ROS 2 camera driver node in
`src/camera_driver.cpp` (class `CameraDriver`). The model covers four parts:

- **Frame hand-off buffer.** The driver's frame callback (`publishImage`) hands frames to the
  publishing thread (`run`) through a buffer of at most two frames. It counts the frames it drops.
- **Parameter registry.** `readParameterFile` reads a definition file of `name type node` lines.
  It fills an ordered name list and a map from exposed name to `NodeInfo` (hardware node name and type).
- **Verified register writes.** Parameter updates (`parameterChanged`, `setParameter`) are coerced
  by node type and written through `setEnum`/`setDouble`/`setInt`/`setBool`. Each setter checks the
  driver's status and the value the camera actually applied.
- **Control channel, encoding lookup and status counters.** `controlCallback` writes exposure and
  gain only when they change. `flir_to_ros_encoding` maps pixel formats to encodings. `printStatus`
  reports the drop ratio and resets the counters.

Pure logic is written as functions over datatypes, in the modules `QuotedTokens`, `ParameterFile`,
`ParameterValues`, `DriverWrites`, `Dispatch`, `Control` and `Acquisition`. The node's mutable
state is the class `CameraNode.CameraDriver`. Its methods update the fields in place, with loops
where the source loops, and each method is proved against the value model of its part.

The vendor driver is a parameter: a record of four setter functions. Each one either returns a
status string and the applied value, or throws. Middleware answers are method parameters: whether
anyone subscribes, whether filling the image message succeeded, and what the driver's
`startCamera`/`stopCamera` return. The parameter file is passed in as its lines, or as `None` when
it cannot be opened.

## Behaviour worth knowing

- **Buffer order.** The consumer takes the newest frame (`back()` then `pop_back()`), so the buffer is a
  stack: the newest frame is published first. Frames A then B come out as B then A (`Acquisition.StackOrder`). With
  F1, F2 and F3 arriving before the consumer wakes, F3 is dropped and F2 is delivered before F1
  (`Acquisition.OverloadScenario`).
- **Duplicate names.** A name defined twice keeps its first definition: `std::map::insert` does not
  overwrite. The name is still appended to the list a second time (`ParameterFile.RegisterAllFirstWins`,
  `ParameterFile.RegisterAllList`).
- **Double tolerance.** The check `|v - retV| <= 0.025 * |v + retV|` takes 2.5% of the sum, which is
  about 5% of the request. A request of 1000 answered with 1050 passes; 1052 and 951 fail
  (`DriverWrites.ToleranceExamples`, `DriverWrites.ToleranceInterval`).
- **Control exceptions.** One try block covers both control writes. An exception in the exposure
  write therefore skips the gain write (`Control.ControlWrites`).
- **Unrecognised types.** A type string other than float/int/bool/enum leaves `NodeInfo`'s type at
  its default, which the model calls `InvalidNode` and which `setParameter` ignores.

The header `camera_driver.h` is not part of this model, so two things in it are assumptions.
`InvalidNode` assumes the header initialises `NodeInfo::type` to a value outside the four kinds.
The initial exposure cache (0) and the initial gain cache (`std::numeric_limits<float>::lowest()`)
are assumptions of the model's constructor.

## Model

| member | source | states |
|---|---|---|
| `QuotedTokens.ScanQuotedStopsAtDelimiter` | src/camera_driver.cpp:221 | a quoted read (`QuotedTokens.ScanQuoted`) fails when no `"` follows the opening one; when it succeeds, the rest it returns is the input after a `"`, and the token is shorter than the text consumed |
| `QuotedTokens.TokenizeLine` | src/camera_driver.cpp:218-223 | the extraction loop pushes exactly the tokens `Tokens(line)` defines, stopping at the first failed extraction |
| `QuotedTokens.QuotedTokenRoundTrip` | src/camera_driver.cpp:221 | a token written as `std::quoted` writes it (escaped, in quotes) reads back as the original text, whatever follows |
| `QuotedTokens.PlainTokenRoundTrip` | src/camera_driver.cpp:221 | an unquoted word without white space reads back as itself when a space or the line end follows |
| `QuotedTokens.QuotedFieldsRoundTrip` | src/camera_driver.cpp:218-223 | any list of fields, quoted and space-separated, tokenizes back to the same list |
| `QuotedTokens.PlainFieldsRoundTrip` | src/camera_driver.cpp:218-223 | plain words separated by single spaces tokenize back to the same words |
| `ParameterFile.NodeTypeOfInverse` | src/camera_driver.cpp:98-110 | exactly "float", "int", "bool" and "enum" select a usable node type, each its own, and the mapping inverts `TypeName` |
| `ParameterFile.ParseLine` | src/camera_driver.cpp:224-232 | no tokens: blank; first token starting with `#`: comment; otherwise a definition iff there are exactly 3 tokens, mapping tokens[0] to NodeInfo(tokens[2], type of tokens[1]) |
| `ParameterFile.DefinitionLineRoundTrip` | src/camera_driver.cpp:217-233 | a line `name type node` of plain words is read as that definition |
| `ParameterFile.QuotedDefinitionLineRoundTrip` | src/camera_driver.cpp:217-233 | the same for quoted fields, so any name that does not start with `#` (spaces and quotes included) can be defined |
| `ParameterFile.DefinitionsAppend` | src/camera_driver.cpp:217-235 | lines are read independently: the definitions of a file are those of its parts, in order |
| `ParameterFile.SkippedLineIgnored` | src/camera_driver.cpp:224-231 | a blank, comment or malformed line contributes nothing and the lines after it are still read |
| `ParameterFile.LoadStep` | src/camera_driver.cpp:224-233 | one more line registers its definition, if any, and changes nothing otherwise |
| `ParameterFile.RegisterAllList` | src/camera_driver.cpp:233 | every definition's name is appended to the list in file order, duplicates included |
| `ParameterFile.RegisterAllKeeps` | src/camera_driver.cpp:232 | the map's names are the old ones plus the defined ones, and no existing entry is overwritten |
| `ParameterFile.RegisterAllFirstWins` | src/camera_driver.cpp:232 | for a new name the map holds its first definition |
| `ParameterFile.LoadEffect` | src/camera_driver.cpp:217-235 | after reading a file the list is the old list plus all defined names, old entries are kept, and the keys are the old keys plus the defined names |
| `ParameterValues.DoubleIntParam` | src/camera_driver.cpp:66-78 | accepts exactly double and integer values, integers widened exactly; otherwise (false, 0) |
| `ParameterValues.BoolIntParam` | src/camera_driver.cpp:80-92 | accepts exactly bool and integer values, an integer meaning true iff nonzero; otherwise (false, false) |
| `ParameterValues.TruncateToInt` | src/camera_driver.cpp:350 | the double-to-int conversion at the `setInt` call rounds toward zero |
| `ParameterValues.TruncateWhole` | src/camera_driver.cpp:348-350 | an integer value widened to double reaches `setInt` unchanged |
| `ParameterValues.IntToStringRoundTrip` | src/camera_driver.cpp:332 | the decimal text of an integer value, as an enum node receives it, reads back as the integer |
| `ParameterValues.RemoveQuotes` | src/camera_driver.cpp:334 | the result has no `"` and keeps every other character with its multiplicity |
| `ParameterValues.RemoveQuotesAppend` | src/camera_driver.cpp:334 | removing quotes from a concatenation removes them from each part, so the kept characters stay in order |
| `ParameterValues.RemoveQuotesChar` | src/camera_driver.cpp:334 | a single `"` is dropped and any other single character is kept |
| `ParameterValues.RemoveQuotesUnquoted` | src/camera_driver.cpp:334 | a value without quotes is forwarded unchanged |
| `ParameterValues.RemoveQuotesIdempotent` | src/camera_driver.cpp:334 | removing quotes a second time changes nothing |
| `DriverWrites.ToleranceInterval` | src/camera_driver.cpp:286 | the double check passes a positive request v exactly for applied values in [39/41 v, 41/39 v], a negative one symmetrically, and 0 only for 0 |
| `DriverWrites.ToleranceBasics` | src/camera_driver.cpp:286 | the check is symmetric, accepts the exact value and rejects a sign change |
| `DriverWrites.ToleranceExamples` | src/camera_driver.cpp:286 | 1000 against 1024, 1050 or 952 passes; 1000 against 1052 or 951 fails |
| `DriverWrites.SetEnum` | src/camera_driver.cpp:259-274 | verified iff the driver returns status "OK" and exactly the requested string; a driver exception escapes |
| `DriverWrites.SetDouble` | src/camera_driver.cpp:276-291 | verified iff status "OK" and the applied value is within the relative tolerance; a driver exception escapes |
| `DriverWrites.SetInt` | src/camera_driver.cpp:293-308 | verified iff status "OK" and exactly the requested integer; a driver exception escapes |
| `DriverWrites.SetBool` | src/camera_driver.cpp:310-325 | verified iff status "OK" and exactly the requested boolean; a driver exception escapes |
| `DriverWrites.ExactAnswersVerify` | src/camera_driver.cpp:276-308 | an exactly honoured double write verifies; an integer write answered with another value fails |
| `Dispatch.DispatchByType` | src/camera_driver.cpp:327-367 | enum: the value's text without quotes; float: double or widened integer; int: double truncated or integer as is; bool: bool or integer nonzero; other value types and invalid nodes: no write |
| `Dispatch.WriteRequestTarget` | src/camera_driver.cpp:327-367 | every write goes to the node's hardware name and an enum write never contains a quote |
| `Dispatch.UpdateAttempts` | src/camera_driver.cpp:373-391 | a batch of updates makes at most one write per update |
| `Dispatch.NoDriverNoWrites` | src/camera_driver.cpp:378-381 | while no driver exists no update writes anything |
| `Dispatch.UpdateAttemptsAppend` | src/camera_driver.cpp:373-391 | updates are handled one at a time: an exception or failed write in one leaves the later ones unaffected |
| `Dispatch.SingleUpdate` | src/camera_driver.cpp:373-391 | an unknown name, a missing driver, a NOT_SET value or a value that does not fit the node's type writes nothing; otherwise exactly the dispatched write is made and its outcome recorded |
| `Control.ApplyControl` | src/camera_driver.cpp:406-435 | a control message makes at most two writes, all of them double writes |
| `Control.ControlWrites` | src/camera_driver.cpp:410-435 | exposure is written iff et > 0, et differs from the cache and "exposure_time" is mapped; gain likewise above the sentinel; an exposure exception skips the gain write |
| `Control.ControlCacheUpdate` | src/camera_driver.cpp:411-428 | each cached value becomes the message's value exactly when its write was made and returned, verified or not, and otherwise stays; the exposure value is kept even when the gain write then throws |
| `Control.ControlIdempotent` | src/camera_driver.cpp:411-428 | repeating a message whose writes returned makes no second write |
| `Control.ControlRetriesAfterException` | src/camera_driver.cpp:410-435 | after an exposure exception the cache is unchanged, so the same message writes again |
| `Control.ControlScenario` | src/camera_driver.cpp:406-432 | exposure 5000 with the gain sentinel writes only exposure; then exposure 5000 with gain 2.0 writes only gain |
| `Acquisition.Offer` | src/camera_driver.cpp:449-454 | the buffer stays within 2 frames, the waiting frames stay as a prefix in order, and each offer either adds one frame or one drop, never both |
| `Acquisition.OfferEffect` | src/camera_driver.cpp:449-454 | below capacity the offered frame is appended after the waiting ones; at capacity the frames are unchanged and the drop count rises by one |
| `Acquisition.Take` | src/camera_driver.cpp:470-473 | only a non-empty buffer yields a frame; the frame is the last one and the rest keep their order |
| `Acquisition.TakeUndoesOffer` | src/camera_driver.cpp:449-473 | taking right after an accepted offer returns that frame and restores the previous state |
| `Acquisition.OfferAllEffect` | src/camera_driver.cpp:449-454 | after a run of offers the buffer holds the old frames plus the first offered ones that fit; all others are counted as dropped |
| `Acquisition.FullQueueDrops` | src/camera_driver.cpp:449-454 | once full, further offers only raise the drop count |
| `Acquisition.StackOrder` | src/camera_driver.cpp:467-473 | frames A then B are taken as B, then A, then nothing |
| `Acquisition.OverloadScenario` | src/camera_driver.cpp:445-473 | F1, F2, F3 before the consumer wakes: F3 dropped (count 1), then F2 and F1 delivered in that order |
| `Acquisition.RosEncoding` | src/camera_driver.cpp:482-499 | BayerRG8, RGB8 and Mono8 get their encodings; every other format gets "INVALID" |
| `Acquisition.EncodingRoundTrip` | src/camera_driver.cpp:482-499 | the lookup is one-to-one on the three formats it knows |
| `Acquisition.DropRate` | src/camera_driver.cpp:162-165 | the ratio times the published count is the dropped count; 0 when nothing was published |
| `Acquisition.DropRateExample` | src/camera_driver.cpp:162-165 | one drop against two publications is a ratio of one half |
| `CameraNode.CameraDriver.constructor` | src/camera_driver.cpp:113-116 | the state before `start()`: empty buffer, zero counters, empty registry, no driver, camera not running |
| `CameraNode.CameraDriver.PublishImage` | src/camera_driver.cpp:445-456 | the buffer and drop counter change exactly as `Offer` says, keeping at most two frames |
| `CameraNode.CameraDriver.TakeImage` | src/camera_driver.cpp:463-474 | the returned frame and the new buffer are exactly `Take` of the old buffer |
| `CameraNode.CameraDriver.DoPublish` | src/camera_driver.cpp:501-538 | the frame is stamped with its capture time and encoded by the lookup; the image goes out and is counted iff subscribed and filled; metadata goes out iff subscribed, independently |
| `CameraNode.CameraDriver.PrintStatus` | src/camera_driver.cpp:159-179 | with a driver it reports the drop ratio and resets both counters; without one nothing changes |
| `CameraNode.CameraDriver.ReadParameterFile` | src/camera_driver.cpp:209-238 | fails without touching the registry if the file cannot be opened; otherwise the registry becomes `Load` of the old registry and the file's lines |
| `CameraNode.CameraDriver.ParameterChanged` | src/camera_driver.cpp:370-396 | makes exactly the writes `UpdateAttempts` describes and always reports success ("all good!") |
| `CameraNode.CameraDriver.ControlCallback` | src/camera_driver.cpp:398-443 | the writes made and the new cache are exactly `ApplyControl` of the old cache |
| `CameraNode.CameraDriver.AttachDriver` | src/camera_driver.cpp:602 | after creation a driver exists |
| `CameraNode.CameraDriver.ReleaseDriver` | src/camera_driver.cpp:130 | after the reset no driver exists |
| `CameraNode.CameraDriver.StartCamera` | src/camera_driver.cpp:547-559 | a running camera stays running; otherwise it runs iff the driver started it |
| `CameraNode.CameraDriver.StopCamera` | src/camera_driver.cpp:150-157 | a running camera with a driver stops and returns the driver's answer; otherwise nothing changes and false is returned |

## Left out

- Threads, the mutex and the condition variable. This includes the one-second wait loop and the
  `keepRunning_`/`rclcpp::ok()` checks in `run`, and the join in `stop()`. Each operation is modelled
  as running to completion on its own. The counters are therefore exact, where the source's are
  best-effort under races.
- ROS node machinery. This covers `readParameters`, `createCameraParameters`, `make_desc` and the
  `DescSetter` template, subscriptions, publishers, image_transport, the QoS profile and
  `camera_info_manager`. These are library calls whose behaviour is not visible here.
- `start()` apart from the driver creation. Camera discovery with its retries and `sleep_for`,
  `initCamera`, the node map dump and the driver settings are device I/O.
- The vendor driver's internals. The model's driver is a stateless oracle: a reply depends only on
  the node name and the requested value.
- `sensor_msgs::fillImage` and the message contents (pixel data, width, height, stride). Fill
  success and subscriber presence are parameters of `DoPublish`.
- `printStatus` output rate, elapsed time and `lastStatusTime_`, and all logging. These depend on
  clocks and printing.
- Reading the file and splitting it into lines (`std::ifstream`, `getline`). The model takes the lines.
- Array-typed parameter values.
- `std::to_string(double)`, used when an enum node receives a double. It is the parameter `formatDouble`.
- Numeric widths. Doubles and the float gain are reals. The model does not capture rounding to
  double, `int64` values above 2^53 losing precision when widened, or out-of-range double-to-`int`
  conversions at `setInt`, which are undefined behaviour in C++.
- CameraNode.CameraDriver.ControlCallback: does not model a control message arriving before
  `driver_` exists, which would dereference a null pointer. The model assumes the driver oracle answers.
