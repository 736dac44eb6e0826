# FyreLog core in Dafny

A model of the core of FyreLog, a PHP logging library.

- **Logger**: the abstract handler. It merges and normalises its configuration, decides with `canHandle` whether it admits a level and a scope, formats an entry, and interpolates `{name}` placeholders.
- **ArrayLogger**: keeps its entries in memory.
- **FileLogger**: appends lines to one file per level, and moves a file aside once it reaches `maxSize`.
- **LogManager**: a registry of handler configurations. It builds each handler on first use, and `handle` sends a message to every configured handler that admits it.
- **Log**: the older static registry.

| file | module | models |
|---|---|---|
| `php.dfy` | `Php` | PHP values, the `(string)` and `(array)` casts, truthiness, `strtoupper` |
| `wrappers.dfy` | `Wrappers` | `Option`, `Result`, and the exceptions: config exists, invalid class, invalid config, bad method call, `TypeError` |
| `environment.dfy` | `Environment` | `Ambient`: the clocks, the superglobals behind the reserved placeholders, the JSON encoder, the CLI flag |
| `levels.dfy` | `Levels` | the eight level names and their ranks |
| `logger.dfy` | `LoggerBase` | configuration, `canHandle`, `format` |
| `interpolation.dfy` | `Interpolation` | `Logger::interpolate` |
| `manager_interpolation.dfy` | `ManagerInterpolation` | `LogManager::interpolate` as written |
| `array_logger.dfy` | `ArrayHandler` | `ArrayLogger`, a class with a `content` sequence |
| `file_logger.dfy` | `FileHandler` | `FileLogger` over a file store (`FileStore`, a map from paths to contents) |
| `sinks.dfy` | `Sinks` | the closed table of handler classes that `build` and `load` choose from |
| `log_manager.dfy` | `Manager` | `LogManager`, as a class and as a value (`Registry`) |
| `log.dfy` | `StaticLog` | `Log`, its two static maps as the fields of one object |

## How the model is organised

**Registries.** Each registry has two layers:
- a class whose methods update fields, as the PHP does;
- specification functions on values that state what each method does.

`LogManager.Handle` is proved against `Handled`. `Handled` interpolates the message with LogManager's own interpolate as written (`ManagerInterpolation`), then walks the configuration keys in insertion order with `Dispatch`, one `Visit` per key. The lemmas about the walk are stated over those functions. Loaded handlers are seen through `SinkView` values: an ArrayLogger's configuration and entries, or a FileLogger's configuration and directory.

**Interpolation.** It is modelled as the PHP does it:
- a scanner for `(?<!\\){([\w-]+)}`;
- `array_unique`, keeping first occurrences;
- a replacement table filled by a loop;
- `str_replace` with arrays, which is a fold of replace-all over the whole message, one table entry after another.

So an escaped `\{a}` is still rewritten when `a` has a replacement. A replacement value that contains a later placeholder is rewritten too. Lemmas exhibit both behaviours.

**Where the code and its tests disagree, the model follows the code, with two exceptions:**
- **Level and scope.** `LogManager::handle` passes the numeric rank to `canHandle` and no scope (LogManager.php:124,131). `canHandle` declares `string $level` under strict types, so that call is a `TypeError`. The tests call `handle` with a `scope:` argument and expect filtering by level name (ArrayTest.php:152-174). The model passes the level name and the event scope, as the tests expect.
- **ArrayLogger interpolation.** `LogManager::handle` interpolates the message once. `ArrayLogger::handle` then calls `interpolate` again with empty data, so reserved names (and escaped placeholders) left in the text after the first pass are filled in the second. The model keeps both passes.

**Where the code is followed:**
- The FileLogger line is `gmdate(dateFormat) - message\r\n`, with no `[LEVEL]` tag, although FileTest.php:47-49 expects one.
- The rotated file name uses the level, not the configured `file`, and omits the suffix.

## Model

| member | source | states |
|---|---|---|
| LoggerBase.Merge | src/Logger.php:58 | each key comes from the options if present, else the subclass defaults, else the base defaults; the keys are the union |
| LoggerBase.Normalise | src/Logger.php:60-66 | a normalised value is null or an array, and is null exactly when the input is |
| LoggerBase.Configured | src/Logger.php:58-66 | the constructed configuration always has 'dateFormat', 'levels', 'scopes' with 'levels'/'scopes' null or arrays, and holds exactly the keys of the three arrays |
| LoggerBase.Construct | src/Logger.php:56-67 | the step-by-step constructor (merge, then the two casts) yields the configuration `Configured` describes |
| LoggerBase.ConfiguredPrecedence | src/Logger.php:58-66 | per key: options over subclass defaults over base defaults, and 'levels'/'scopes' normalised |
| LoggerBase.ConfiguredWrapsSingleValue | src/Logger.php:60-66 | a lone non-null, non-array 'levels' or 'scopes' value x becomes the one-element list [x] |
| LoggerBase.ConfiguredDefaults | src/Logger.php:43-47 | with no options and no subclass defaults the configuration is exactly the base defaults |
| LoggerBase.Strings | src/Logger.php:78-81 | the string elements of a PHP list, as a set |
| LoggerBase.IntersectsStrings | src/Logger.php:81 | for string lists, array_intersect is non-empty iff the two sets of strings share an element |
| LoggerBase.EmptyStringList | src/Logger.php:80 | a string list equals [] iff it has no strings |
| LoggerBase.CanHandle | src/Logger.php:76-84 | with neither a level list nor a scope list every event is admitted; with a non-empty scope list an event without a scope is refused |
| LoggerBase.CanHandleMatchesAdmits | src/Logger.php:76-84 | canHandle holds iff the level is allowed (no list, or strictly in it) and the scope test passes (no scope list; or no event scope and an empty list; or a shared scope), both directions; an empty-array event scope is not "no scope" |
| LoggerBase.LevelOutsideListRefused | src/Logger.php:78-83 | a level missing from a configured level list is refused, whatever the scope |
| LoggerBase.FormatLayout | src/Logger.php:104-109 | the formatted entry is the optional date and a space, '[', the upper-cased level, '] ', then the message, position by position, and its length is the sum of the parts |
| LoggerBase.FormatMessageRecoverable | src/Logger.php:104-109 | two messages formatted with the same level and date give the same entry only if they are equal |
| LoggerBase.Format | src/Logger.php:104-109 | the entry is as long as the date and a space (when included), the level, the characters "[", "] ", and the message |
| Php.Digits | src/Logger.php:143 | the decimal form of a natural number is a non-empty digit string whose value is the number, starting with '0' only for zero |
| Php.DigitsOfValue | src/Log.php:93-94 | a digit string with no leading zero (or "0" itself) is the decimal form of its value |
| Php.IntKeyIsIntToString | src/Log.php:93-94 | a key becomes an int array key exactly when it is the decimal form of a 64-bit integer |
| Php.CastArray | src/Logger.php:60-66 | the (array) cast gives an array, keeps an array, and wraps any other non-null value as its only element |
| Php.Upper | src/Logger.php:107 | strtoupper keeps the length and maps each ASCII lower-case letter to upper case, leaving other characters |
| Levels.Rank | src/LogManager.php:33-42 | a name has a rank iff it is one of the eight levels; the rank is its 1-based position in the table |
| Interpolation.RunFrom | src/Logger.php:126 | the maximal run of [\w-] characters starting at a position |
| Interpolation.MatchAt | src/Logger.php:126 | a match position holds a '{' with no backslash before it that starts a token {name} of a [\w-]+ name, and every such position is a match |
| Interpolation.NameAt | src/Logger.php:126 | a match captures a non-empty name whose token {name} occurs at the match position |
| Interpolation.Scan | src/Logger.php:126 | every captured name is a [\w-]+ name |
| Interpolation.ScanOnlyMatches | src/Logger.php:126 | every reported name comes from a match of the pattern (a '{' not preceded by a backslash) |
| Interpolation.ScanFindsEveryMatch | src/Logger.php:126 | every match of the pattern is reported |
| Interpolation.Placeholders | src/Logger.php:126 | a name is among the captured names iff some match position of the message captures it |
| Interpolation.FirstIndex | src/Logger.php:132 | the first position of a name in a list |
| Interpolation.Unique | src/Logger.php:132 | array_unique: the same names, each once, in order of first appearance |
| Interpolation.Render | src/Logger.php:142-157 | a scalar renders as its string cast; null renders as "[unhandled type null]" |
| Interpolation.Replacement | src/Logger.php:139-171 | a name in the data gets its rendered value; a name neither in the data nor reserved gets no replacement |
| Interpolation.Replacements | src/Logger.php:136-173 | every table entry is {name} for a listed name with its replacement; every listed name with a replacement has its entry |
| Interpolation.ReplacementsExtends | src/Logger.php:136-173 | one more name appends its entry, if it has a replacement, at the end of the table |
| Interpolation.Interpolate | src/Logger.php:118-178 | the loop that fills $replacements, then str_replace, computes `Interpolated` |
| Interpolation.Interpolated | src/Logger.php:118-178 | a message in which the pattern matches nothing is returned unchanged |
| Interpolation.NoBraceUnchanged | src/Logger.php:122-124 | a message without '{' has no placeholders and is returned unchanged |
| Interpolation.NothingToReplaceUnchanged | src/Logger.php:175-177 | when no placeholder has a replacement, the message is returned unchanged |
| Interpolation.ReplaceAllCopies | src/Logger.php:177 | replace-all copies a stretch without '{' through unchanged |
| Interpolation.ReplaceAll | src/Logger.php:177 | replacing a token by itself gives the text back (what it replaces and keeps is stated by the lemmas below) |
| Interpolation.StrReplace | src/Logger.php:177 | a table whose every entry maps its token to itself leaves the message as it is (what it replaces is stated by StrReplaceTokenFirst and PresentPlaceholderReplaced) |
| Interpolation.ReplaceAllFront | src/Logger.php:177 | a leading stretch without '{' passes through one replace-all unchanged |
| Interpolation.ReplacesOccurrence | src/Logger.php:177 | an occurrence of the token after a stretch without '{' becomes the replacement, and the scan goes on after it |
| Interpolation.AbsentUnchanged | src/Logger.php:177 | text in which the token occurs nowhere comes back unchanged |
| Interpolation.TokenPassesThrough | src/Logger.php:177 | a different token at the front is copied through whole |
| Interpolation.StrReplaceCopies | src/Logger.php:177 | a leading stretch without '{' passes through the whole str_replace unchanged |
| Interpolation.StrReplaceTokenFirst | src/Logger.php:177 | a message starting with {k}, put through a table mapping {k} to a value without '{', starts with that value |
| Interpolation.OverlapAtStart | src/Logger.php:177 | two tokens that overlap at the start of an occurrence are the same token |
| Interpolation.ReplaceAllKeepsToken | src/Logger.php:177 | an occurrence of a token other than the pattern is still present after one replace-all |
| Interpolation.StrReplaceKeepsToken | src/Logger.php:177 | a token that is no entry's key survives the whole sequential str_replace |
| Interpolation.UnknownPlaceholderKept | src/Logger.php:159-177 | a placeholder missing from the data, and not a reserved name with an ambient value, stays verbatim in the output |
| Interpolation.EntryForEveryReplacedName | src/Logger.php:139-143 | every placeholder whose name is in the data gets the entry {name} => rendered value |
| Interpolation.PresentPlaceholderReplaced | src/Logger.php:139-177 | a placeholder whose name is in the data, after unescaped text without '{', is replaced by the rendered value: the output starts with the text and the value |
| Interpolation.EscapedPlaceholderStillReplaced | src/Logger.php:126-177 | "\{a} {a}" with a = "x" gives "\x x": the escaped token is not scanned but is still replaced |
| Interpolation.ReplacedValueIsRescanned | src/Logger.php:177 | "{a}{b}" with a = "{b}", b = "y" gives "yy": a replacement containing a later token is rewritten |
| ManagerInterpolation.Step | src/LogManager.php:229-251 | one iteration raises TypeError iff $data is no longer an array; a present key keeps $data; a missing key rebinds $data to its ambient value or null |
| ManagerInterpolation.Render | src/LogManager.php:233-236 | a non-null value renders as Logger's interpolate renders it; null goes to the JSON encoder |
| ManagerInterpolation.Fill | src/LogManager.php:229-252 | the table built so far holds only tokens, and the only error raised is TypeError |
| ManagerInterpolation.FillTable | src/LogManager.php:229-252 | the loop over the unique names computes `Fill` |
| ManagerInterpolation.Interpolate | src/LogManager.php:213-257 | the loop, with its rebinding of $data, computes `InterpolatedAsWritten` |
| ManagerInterpolation.InterpolatedAsWritten | src/LogManager.php:213-257 | the only error is TypeError; when every placeholder is in the data with a non-null value the result is Logger's interpolation |
| ManagerInterpolation.FillStopsAtError | src/LogManager.php:232 | once the loop has raised, later names do not matter |
| ManagerInterpolation.FillAgreesWhileNothingIsMissing | src/LogManager.php:232-237 | while every name is in the data (and not null), $data is never rebound and the table is Logger's |
| ManagerInterpolation.MissingNameRebindsData | src/LogManager.php:239-246 | a missing non-reserved name sets $data to null, after which any further name raises TypeError |
| ManagerInterpolation.MissingNameThenPresentNameRaises | src/LogManager.php:229-257 | "{a} {b}" with only b = "x" raises TypeError as written, where Logger's interpolate gives "{a} x" |
| ArrayHandler.EntryLayout | src/Handlers/ArrayLogger.php:32-34 | an entry starts with the date and a space and ends with the interpolated message |
| ArrayHandler.Entry | src/Handlers/ArrayLogger.php:32-34 | the entry is as long as the date, a space, the bracketed level and a space, and the interpolated message |
| ArrayHandler.ArrayLogger.constructor | src/Logger.php:56-67 | a new ArrayLogger has the base configuration merged with the options, and no entries |
| ArrayHandler.ArrayLogger.Handle | src/Handlers/ArrayLogger.php:30-35 | exactly one entry, format(level, interpolate(message, data)), is appended at the end; earlier entries are unchanged |
| ArrayHandler.ArrayLogger.Read | src/Handlers/ArrayLogger.php:42-45 | the entries, in the order they were appended |
| ArrayHandler.ArrayLogger.Clear | src/Handlers/ArrayLogger.php:18-21 | no entries remain |
| ArrayHandler.HandleTwice | tests/ArrayTest.php:37-56 | two handles read back as the two entries, first before second |
| ArrayHandler.ClearEmpties | src/Handlers/ArrayLogger.php:18-21 | read after clear is empty, whatever was handled before |
| FileHandler.FileConfigured | src/Handlers/FileLogger.php:36-45 | the constructed configuration has every key handle reads |
| FileHandler.CliSuffix | src/Handlers/FileLogger.php:40-42 | under the CLI with a falsy 'file', a null suffix becomes "-cli" and any other (even "") is kept; nothing else changes |
| FileHandler.TargetNameLayout | src/Handlers/FileLogger.php:55-57 | the name starts with the configured file or else the level, ends with "." and the extension when that is truthy, and is only the file or level with neither suffix nor extension |
| FileHandler.RotatedName | src/Handlers/FileLogger.php:71 | the rotated name starts with the level and a dot |
| FileHandler.AtLeast | src/Handlers/FileLogger.php:70 | size >= maxSize holds iff maxSize has a threshold (an int limit, null as 0, a bool as 0 or 1) and the size reaches it |
| FileHandler.Line | src/Handlers/FileLogger.php:80 | the line is gmdate(dateFormat), " - ", the message, then "\r\n" |
| FileHandler.HandleStep | src/Handlers/FileLogger.php:53-85 | handle keeps every file, creates the target, and adds no path but the target and the rotated file |
| FileHandler.FileLogger.constructor | src/Handlers/FileLogger.php:36-45 | the configuration is the merge with FileLogger's defaults plus the CLI suffix rule; the directory is the 'path' option |
| FileHandler.FileLogger.Handle | src/Handlers/FileLogger.php:53-85 | the store after handle is `HandleStep` of the store before: rotate when the size reaches maxSize, then append the line |
| FileHandler.HandleAppends | src/Handlers/FileLogger.php:55-84 | below maxSize the old content is a prefix of the new one and the rest is the line |
| FileHandler.HandleRotates | src/Handlers/FileLogger.php:70-78 | at maxSize the rotated file receives the old content and the target holds only the new line |
| FileHandler.HandleFrame | src/Handlers/FileLogger.php:53-85 | no path other than the target and the rotated file is created, removed or changed |
| FileHandler.HandleEndsWithLine | src/Handlers/FileLogger.php:80-84 | the target exists afterwards and ends with the line just written |
| FileHandler.RotatedDiffersFromTarget | src/Handlers/FileLogger.php:55-71 | with no configured file and no suffix (or the CLI one), the rotated name differs from the target |
| FileHandler.DefaultSettings | src/Handlers/FileLogger.php:20-42 | by default: extension "log", maxSize 1048576, no file, no suffix, and "-cli" under the CLI |
| FileHandler.DefaultName | src/Handlers/FileLogger.php:55-57 | with the defaults, debug writes to debug.log |
| FileHandler.DefaultCliName | src/Handlers/FileLogger.php:40-57 | under the CLI, debug writes to debug-cli.log |
| FileHandler.NamedFileHasNoCliSuffix | src/Handlers/FileLogger.php:40-57 | a configured file "all" replaces the level and suppresses the CLI suffix: all.log |
| Sinks.ClassOf | src/LogManager.php:77-83 | a missing 'className' is an invalid class with an empty name; a non-string is a TypeError; exactly the two handler class names are accepted; any other string is an invalid class with that name |
| Sinks.ViewOf | src/Logger.php:56-67 | a loaded handler's view is well formed |
| Sinks.BuildView | src/LogManager.php:75-86 | build fails exactly when the class check fails, with its error; a new ArrayLogger has no entries |
| Sinks.Build | src/LogManager.php:75-86 | build yields a fresh handler whose view is `BuildView`, or the class check's error |
| Manager.Without | src/LogManager.php:190 | removing a key from the order keeps the other keys, keeps them distinct, and changes nothing when the key is absent |
| Manager.SetConfigSpec | src/LogManager.php:170-179 | setConfig fails with config-exists exactly when the key is configured |
| Manager.UnloadSpec | src/LogManager.php:187-193 | the key leaves the configs, the handlers and the order; every other key stays in each |
| Manager.UseSpec | src/LogManager.php:201-204 | configs and order are unchanged; success keeps the handler under the key, failure changes nothing, and a loaded key returns its handler |
| Manager.Loading | src/LogManager.php:201-204 | use returns the kept handler or builds one and keeps it; a failed build keeps nothing |
| Manager.SetConfigKeepsCoherent | src/LogManager.php:170-179 | setConfig of a new key keeps one position per key and handlers only for configured keys |
| Manager.UnloadKeepsCoherent | src/LogManager.php:187-193 | unload keeps the registry coherent |
| Manager.UnloadRemovesOnlyKey | src/LogManager.php:187-193 | unload removes the key from both maps and the order, and leaves every other key as it was |
| Manager.UnloadAbsentIsNoOp | src/LogManager.php:187-193 | unloading a key that is not configured changes nothing |
| Manager.SetConfigThenUnload | src/LogManager.php:170-193 | setConfig of a new key followed by unload of it gives the registry back |
| Manager.UnloadUndoesAdd | src/LogManager.php:170-193 | the same round trip, from a key absent from every part of the registry |
| Manager.WithoutLast | src/LogManager.php:176-190 | removing the key just appended gives the order back |
| Manager.UseSpecCached | src/LogManager.php:203 | use of a loaded key returns its handler and changes nothing |
| Manager.UseSpecLoads | src/LogManager.php:203 | use of an unloaded key builds from the stored options (or none) and keeps the result only on success |
| Manager.UseCaches | src/LogManager.php:201-204 | a second use returns what the first returned and changes nothing |
| Manager.UseUnconfiguredFails | src/LogManager.php:203 | use of an unconfigured key fails with an invalid class and caches nothing |
| Manager.UseKeepsCoherent | src/LogManager.php:201-204 | use keeps the registry coherent |
| Manager.Deliver | src/Handlers/ArrayLogger.php:30-35 | forwarding keeps the handler's kind and configuration; a FileLogger's view is unchanged; an ArrayLogger leaves the files alone |
| Manager.Visit | src/LogManager.php:128-135 | one iteration changes only the visited key's handler; an error changes nothing; success leaves the key loaded; a key PHP holds as an int raises TypeError at use |
| Manager.UsedAndForwarded | src/LogManager.php:129-135 | use, canHandle and forward on a string key change only that key's handler, or nothing on an error, and leave the key loaded on success |
| Manager.Forwarded | src/LogManager.php:131-135 | forwarding changes only the handler under the key |
| Manager.Dispatch | src/LogManager.php:128-136 | the walk keeps every loaded handler well formed |
| Manager.Handled | src/LogManager.php:118-137 | an unknown level raises a bad method call and an interpolation error is raised, both before any handler is touched |
| Manager.DispatchExtends | src/LogManager.php:128-136 | one more key extends the walk by one visit |
| Manager.DispatchStops | src/LogManager.php:128-136 | after an error the remaining keys are not visited |
| Manager.DispatchOutside | src/LogManager.php:128-136 | a key the walk does not visit keeps its handler, or its absence |
| Manager.VisitLocal | src/LogManager.php:129-135 | what a visit does to its key depends only on that key's handler |
| Manager.UsedAndForwardedLocal | src/LogManager.php:129-135 | what use and forward do to a key depends only on that key's handler |
| Manager.LoadingLocal | src/LogManager.php:203 | use of a key depends only on that key's entry in the loaded handlers |
| Manager.ForwardedLocal | src/LogManager.php:131-135 | forwarding gives the key's handler the same new state whatever the others and the files are |
| Manager.DispatchLoadsOnlyVisited | src/LogManager.php:128-136 | the walk loads handlers only for the keys it visits |
| Manager.DispatchVisitsOnce | src/LogManager.php:128-136 | over distinct keys, each key ends with the handler one visit from the start gives it: it is visited exactly once |
| Manager.DispatchLast | src/LogManager.php:128-136 | a completed walk is the walk over all but the last key, then a visit of the last |
| Manager.HandledWalks | src/LogManager.php:118-137 | a handle that succeeds had a known level and an interpolation without error, and walks the configs in insertion order with the message LogManager::interpolate returned |
| Manager.HandledMissingNameRaises | src/LogManager.php:126 | handle of "{a} {b}" with only b in the data raises TypeError before any handler is built or touched |
| Manager.IntKeyFirstRaises | src/LogManager.php:128-129 | when the first configured key is held as an int, handle raises TypeError and touches nothing |
| Manager.HandledKeepsCoherent | src/LogManager.php:118-137 | handle loads handlers only for configured keys |
| Manager.HandledKey | src/LogManager.php:128-136 | each configured key's handler ends as one visit from its state before handle |
| Manager.AdmittedArraySinkAppendsOnce | src/LogManager.php:131-135 | a loaded ArrayLogger that admits the event gains exactly one entry at the end, and earlier entries stay |
| Manager.RefusingSinkUnchanged | src/LogManager.php:131-132 | a loaded handler that refuses the level or scope is left exactly as it was |
| Manager.SkippedLevelLeavesNewSinkEmpty | tests/ArrayTest.php:162-174 | an ArrayLogger whose levels exclude the event level is built by the walk and left with no entries |
| Manager.TwoHandlesAppendInOrder | tests/ArrayTest.php:37-56 | two handles of admitted events append their entries in handling order |
| Manager.ViewsOf | src/LogManager.php:48 | the views of the loaded handlers have the same keys and are well formed |
| Manager.ViewsOfAdd | src/LogManager.php:203 | keeping a new handler adds exactly its view and its object |
| Manager.ViewsOfRemove | src/LogManager.php:189 | dropping a handler drops exactly its view |
| Manager.ViewsUnchanged | src/LogManager.php:48 | the views change only when an ArrayLogger object changes |
| Manager.ViewsAfterAppend | src/Handlers/ArrayLogger.php:34 | when one ArrayLogger changes, only the view under its key changes |
| Manager.LogManager.State | src/LogManager.php:44-48 | the registry a valid manager stands for is coherent |
| Manager.LogManager.constructor | src/LogManager.php:56-65 | a new manager has no configs and no handlers |
| Manager.LogManager.SetConfig | src/LogManager.php:170-179 | the new state is `SetConfigSpec` of the old: config-exists and no change for a known key, else the options stored at the end of the order |
| Manager.LogManager.GetConfig | src/LogManager.php:102-106 | getConfig() returns every stored config |
| Manager.LogManager.GetConfigKey | src/LogManager.php:102-109 | getConfig(key) returns the stored options iff the key is configured, else null |
| Manager.LogManager.HasConfig | src/LogManager.php:145-148 | hasConfig holds iff getConfig(key) returns options |
| Manager.LogManager.IsLoaded | src/LogManager.php:156-159 | isLoaded holds iff a handler is kept under the key, and then the key is configured |
| Manager.LogManager.Unload | src/LogManager.php:187-193 | the new state is `UnloadSpec` of the old; the key is neither configured nor loaded |
| Manager.LogManager.Clear | src/LogManager.php:91-95 | no configs and no handlers remain |
| Manager.LogManager.Use | src/LogManager.php:201-204 | the new state and the result are `UseSpec` of the old state; a loaded key returns its own handler and changes nothing |
| Manager.LogManager.Load | src/LogManager.php:203 | builds from the stored options (or none) and keeps the fresh handler only on success |
| Manager.LogManager.Attach | src/LogManager.php:203 | keeping a handler adds exactly its view |
| Manager.LogManager.Step | src/LogManager.php:128-136 | one more iteration of the loop extends the walk by the next key, or ends it at an error |
| Manager.LogManager.HandleKey | src/LogManager.php:129-135 | one iteration (use, canHandle, handle) changes the state as `Visit` describes |
| Manager.LogManager.UseAndForward | src/LogManager.php:129-135 | use, canHandle and forward change the state as `UsedAndForwarded` describes |
| Manager.LogManager.Forward | src/LogManager.php:135 | the handler under the key and the files change as `Deliver` describes, nothing else |
| Manager.LogManager.ForwardToArray | src/Handlers/ArrayLogger.php:30-35 | forwarding to an ArrayLogger changes only its view |
| Manager.LogManager.ForwardToFile | src/Handlers/FileLogger.php:53-85 | forwarding to a FileLogger changes only the files |
| Manager.LogManager.Handle | src/LogManager.php:118-137 | the new state, the files and the error are `Handled` of the old state |
| Manager.LogManager.Walk | src/LogManager.php:128-136 | the loop computes `Dispatch` over the configs in insertion order |
| StaticLog.Stored | src/Log.php:100-108 | null options are an invalid config, a known key is config-exists (no overwrite), a non-array is refused, else the options are stored |
| StaticLog.EntryStored | src/Log.php:93-94 | a batch key PHP holds as an int is a TypeError; any other entry is stored as setConfig stores it |
| StaticLog.Batch | src/Log.php:92-98 | a batch never drops or changes an earlier config |
| StaticLog.BatchExtends | src/Log.php:93-95 | one more entry is one more single setConfig |
| StaticLog.BatchStops | src/Log.php:93-95 | after an entry throws, later entries are not looked at |
| StaticLog.BatchStoresAll | src/Log.php:92-98 | a batch that goes through has no key held as an int, and stores every entry's options under its key |
| StaticLog.BatchFailureKeepsEarlier | src/Log.php:92-98 | a failure midway reports that entry's error and leaves the earlier entries stored |
| StaticLog.ZeroKeyBatchRefused | src/Log.php:93-94 | a batch whose first key is "0" raises TypeError and stores nothing |
| StaticLog.LevelOf | src/Log.php:47-54 | a name outside the eight levels is a bad method call; otherwise the result is the rank log looks up for it |
| StaticLog.Log.constructor | src/Log.php:37-39 | the static maps start empty |
| StaticLog.Log.SetConfig | src/Log.php:90-109 | the new config is `Stored` of the old, or unchanged with its error |
| StaticLog.Log.SetConfigs | src/Log.php:92-98 | the loop over the entries computes `Batch` |
| StaticLog.Log.Unload | src/Log.php:115-119 | the key leaves both maps; an absent key changes nothing |
| StaticLog.Log.Clear | src/Log.php:59-63 | both maps are empty |
| StaticLog.Log.Use | src/Log.php:126-129 | a loaded key returns its handler; otherwise load from the stored options (or none), keeping the handler only on success |
| StaticLog.Log.Keep | src/Log.php:128 | keeping a handler adds exactly it under its key |
| StaticLog.UnconfiguredKeyFails | src/Log.php:128 | use of an unconfigured key fails with an invalid class |

## Left out

- Rendering of non-scalar values is an uninterpreted `encode` function: `json_encode`, `serialize`, `ArrayObject`, `toArray`, `__debugInfo`, `get_debug_type`. Objects and floats are not modelled. The only value Logger's interpolate renders as "[unhandled type null]" here is null.
- LogManager::interpolate renders a null data value by `encode`, not by Logger's marker. The registry's handle uses LogManager::interpolate as written, with its TypeError (see Findings); the handlers use Logger's.
- `debug_backtrace` and the superglobals are the `context` parameter. The clocks `date`, `gmdate` and `time` are parameters of `Ambient`.
- `Path::resolve`, `Path::join`, the `chmod` mask, file open modes and `lock()` are left out. A path is a (directory, name) pair, and the directory is the 'path' option as given. The constructor hands 'path' to `Path::resolve` (FileLogger.php:44), which is not part of this model; a non-string 'path' may be refused there with a TypeError under strict types, and the model raises no error for it.
- A string or float `maxSize` is compared as never reached. PHP 8's numeric-string comparison is not modelled.
- Sizes are in characters, not bytes: multibyte text is not modelled.
- A non-string 'dateFormat': under strict types `date()` (Logger.php:106) and `gmdate()` (FileLogger.php:80) raise TypeError for it. The model passes it to the clock through the string cast and raises no error.
- The Container and Config wiring of the LogManager constructor is not modelled. `class_exists`/`is_subclass_of` are a closed table of the two handler classes, with case-sensitive names. `Log::load` accepts any existing class, but the model accepts only the two handler classes.
- Array keys are strings, and an integer key is written in decimal. A key that PHP holds as an int (`Php.IntKey`, the decimal form of a 64-bit integer) raises TypeError where it reaches a string parameter: the batch of `Log::setConfig` (Log.php:94) and `use` in the registry's handle (LogManager.php:129). The LogManager's insertion order is a sequence, but the order of entries inside an options array is not modelled. Log's config map has no order, since nothing in the model walks it.
- `Log::log` and `Log::interpolate` are not modelled. The latter calls ICU `MessageFormatter`, a foreign call. Log::log also passes the numeric rank to `canHandle(string ...)`, a TypeError under strict types. `StaticLog.LevelOf` models `__callStatic`'s check only.
- `getKey`, `threshold`, macros (`MacroTrait`), the PSR `AbstractLogger` methods and the exception message texts are not part of this model.
- Manager.LogManager.Handle: the level name and event scope go to `canHandle`, not the rank and no scope as at LogManager.php:124,131, as explained above.

## Findings

| source | as written | input that shows it | evidently intended | confidence | as-written member | corrected member |
|---|---|---|---|---|---|---|
| src/LogManager.php:239 | when a placeholder name is missing from the data, `$data` itself is reassigned to the ambient value (null for an unknown name), so every later name is looked up in null and `array_key_exists` raises TypeError | message "{a} {b}" with data ['b' => 'x'] | "{a} x", as Logger::interpolate (Logger.php:160) returns, using a separate `$value` | not executed | ManagerInterpolation.MissingNameThenPresentNameRaises | Interpolation.Interpolated, with "{a} x" proved by the second ensures of ManagerInterpolation.MissingNameThenPresentNameRaises |
