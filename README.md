# Avionics status bridge — a Dafny model

The application is a small Electron bridge between an operator window and a
kernel module that runs a simulated real-time task. The main process
(`main.js`) reads the module's status pseudo-file `/proc/avionics_status`. It
parses the file's `Key: Value` lines into a dictionary. It also writes the three
tunable parameters (simulated workload, task period, task deadline) to files
under `/sys/module/avionics_sim/parameters`, but only after checking them
against `^[1-9]\d*$`. The renderer (`renderer.js`) shows the status as
label/value rows in a fixed key order. It fills the empty parameter inputs from
the status. Its three "set" buttons send writes, and read and write failures
become user messages.

The model has one module per concern:

- `JsString` (`js_string.dfy`): the JavaScript string operations the parser
  uses. `split` is on one character, `join` is its inverse, and `trim` is over
  the ECMAScript WhiteSpace and LineTerminator code points. `\r` is one of
  them, so CRLF status files parse like LF ones.
- `StatusParser` (`status_parser.dfy`): the body of the `read-proc-file`
  handler. `ParseStatusText` is the imperative loop over the lines. It is proved
  equal to the fold `StatusMap`, and the parser's properties are lemmas about
  that fold. A line named `__proto__` is never stored: on a plain JavaScript
  object, assigning a string to that key goes to the prototype setter and is
  ignored.
- `ParamValidator` (`param_validator.dfy`): the regular expression
  `^[1-9]\d*$`. It is characterised as "non-empty ASCII digits with no leading
  zero" and as "exactly the decimal spellings of positive integers".
- `FsOracle` (`fs_oracle.dfy`): the file system as an oracle object. Each read
  or write may succeed or fail with any error (message and optional code). The
  oracle logs every call with its outcome, so contracts can count and inspect
  the calls made.
- `MainProcess` (`main_process.dfy`): the `read-proc-file`, `write-sys-param`
  and `get-param-paths` handlers and their reply objects.
- `StatusDisplay` (`status_display.dfy`): the renderer's pure rules. These are
  the display order, the label format, the value classes, the rows and how
  inputs are filled.
- `Renderer` (`renderer.dfy`): the renderer's state as a class `StatusView`.
  Its fields are the fetched paths, the three inputs, the status panel and the
  status message line. Its methods are the event handlers. A status line keyed
  `hasOwnProperty` becomes an own string property of the dictionary, so the
  display's `data.hasOwnProperty(key)` raises a TypeError after the inputs
  were filled and the panel cleared; `updateData` catches it and reports it.

## Model

| member | source | states |
|---|---|---|
| JsString.IsJsSpace | main.js:47 | the characters `trim` removes: ECMAScript WhiteSpace and LineTerminator, by definition; the Trim lemmas are stated over it |
| JsString.TrimStart | main.js:47 | `s.trimStart()` by definition; TrimStartSpec states that it removes exactly the leading run of whitespace |
| JsString.TrimEnd | main.js:47 | `s.trimEnd()` by definition; TrimEndSpec states that it removes exactly the trailing run of whitespace |
| JsString.Trim | main.js:47 | `s.trim()` by definition; TrimIsTrimmed, TrimPadded, AllSpacesTrimEnd and TrimIdentity state its properties |
| JsString.TrimStartSpec | main.js:47 | trimming the start removes exactly a leading run of whitespace: the result is a suffix whose first character is not whitespace |
| JsString.TrimEndSpec | main.js:47 | trimming the end removes exactly a trailing run of whitespace: the result is a prefix whose last character is not whitespace |
| JsString.TrimIsTrimmed | main.js:47 | `trim` never lengthens and leaves no whitespace at either end |
| JsString.TrimPadded | main.js:47 | whitespace padding around a trimmed core is removed and the core is returned intact |
| JsString.AllSpacesTrimEnd | main.js:47 | a string made only of whitespace trims to the empty string |
| JsString.TrimIdentity | main.js:47 | `trim` is the identity on trimmed strings |
| JsString.Split | main.js:42 | `split` on one character always yields at least one part and no part contains the separator |
| JsString.Join | main.js:47 | `valueParts.join(':')`; JoinSplit and SplitJoin prove it the inverse of Split |
| JsString.JoinSplit | main.js:46-47 | joining the parts of a split with the same separator gives back the original string |
| JsString.SplitJoin | main.js:46-47 | splitting a join of separator-free parts gives back those parts |
| JsString.SplitNoSeparator | main.js:42 | a string without the separator splits into itself alone |
| JsString.SplitAt | main.js:46 | the first part ends at the first separator and the rest is the split of the remainder |
| JsString.FirstIndex | main.js:45-46 | gives the position of the first occurrence of an element |
| StatusParser.LineEntry | main.js:45-47 | a line contributes an entry iff it contains a colon |
| StatusParser.Store | main.js:45-47 | one line's effect on the dictionary, by definition; StoreEffect states what a line keeps and sets, and LastLineWins the value a key ends with |
| StatusParser.StoreEffect | main.js:45-47 | every entry whose key the line does not carry is kept with its value, and the only key a line can add is its own, never `__proto__` |
| StatusParser.ParseLines | main.js:44-49 | the dictionary built from the lines never has the key `__proto__` |
| StatusParser.StatusMap | main.js:42-49 | the dictionary of a status text never has the key `__proto__` |
| StatusParser.ParseStatusText | main.js:42-49 | the line loop builds the dictionary `StatusMap(data)`, which is total on every text |
| StatusParser.LineEntryAtFirstColon | main.js:46-47 | the key is the trimmed text before the first colon and the value is the trimmed text after it, later colons included |
| StatusParser.ColonInValueExample | main.js:46-47 | `"T: a:b"` gives key `T` and value `a:b` |
| StatusParser.ParsedKeys | main.js:44-47 | a key is in the dictionary iff some line carries it and it is not `__proto__` |
| StatusParser.LastLineWins | main.js:47 | when several lines carry a key, the value is the one from the last of them |
| StatusParser.EntryCountBound | main.js:44-45 | the dictionary has at most as many entries as there are lines containing a colon |
| StatusParser.StatusLineEntry | main.js:46-47 | a line `K: V` with a clean key and value parses to exactly `(K, V)` |
| StatusParser.StatusTextLines | main.js:42 | splitting a joined block of `K: V` lines gives back those lines |
| StatusParser.RoundTrip | main.js:42-49 | text written as `K_i: V_i` lines, with distinct clean keys and clean values, parses to exactly `{K_i: V_i}` |
| StatusParser.ParsedEntries | main.js:44-49 | lines each holding one entry `K_i: V_i`, with distinct keys other than `__proto__`, build exactly the dictionary `{K_i: V_i}` |
| StatusParser.SplitTrailingSeparator | main.js:42 | a trailing separator adds one empty last part |
| StatusParser.TrailingNewline | main.js:42-49 | a final newline in the status file does not change the parsed dictionary |
| StatusParser.SampleStatus | main.js:41-50 | a three-line status file with a trailing newline parses to its three entries |
| ParamValidator.DigitsToEnd | main.js:62 | `\d*$`, by definition; DigitsToEndIff states that it holds exactly when every character is an ASCII digit |
| ParamValidator.IsPositiveIntegerText | main.js:62 | the test `^[1-9]\d*$`; AcceptedIff and AcceptedIffDecimalText characterise it |
| ParamValidator.DigitsToEndIff | main.js:62 | `\d*$` holds iff every remaining character is an ASCII digit |
| ParamValidator.AcceptedIff | main.js:62 | a value is accepted iff it is non-empty, all ASCII digits and does not start with `0` |
| ParamValidator.AcceptanceExamples | main.js:62 | `1`, `42` and `999999` pass; `0`, `01`, `-1`, the empty string, `1.5`, `abc`, ` 1` and `1` followed by a newline fail |
| ParamValidator.DecimalText | main.js:62 | the decimal spelling of a positive number is non-empty digits without a leading zero |
| ParamValidator.DecimalTextAccepted | main.js:62 | every positive number's decimal spelling is accepted |
| ParamValidator.AcceptedIsDecimalText | main.js:62 | every accepted value is the decimal spelling of the positive number it denotes |
| ParamValidator.AcceptedIffDecimalText | main.js:62 | a value is accepted iff it is the decimal spelling of some positive integer |
| FsOracle.FileSystem.ReadFile | main.js:41 | exactly one read is logged, with its path and outcome, and no write |
| FsOracle.FileSystem.WriteFile | main.js:65 | exactly one write is logged, with its path, data and outcome, and no read |
| MainProcess.GetParamPaths | main.js:5-9 | the three parameter paths are non-empty and pairwise distinct |
| MainProcess.InvalidValueError | main.js:63 | the rejection message "<name> must be a positive integer." |
| MainProcess.SetMessage | main.js:66 | the success message "<name> set to <value> ms." |
| MainProcess.ReadProcFile | main.js:39-55 | one read of the status file and no write; success replies with the parsed dictionary, failure with the error's message and code |
| MainProcess.WriteSysParam | main.js:58-71 | a rejected value is never written and gets the "must be a positive integer." error; an accepted one is written once, unchanged, to the given path, and the reply follows the write's outcome |
| StatusDisplay.KeyOrderDistinct | renderer.js:113-116 | the display order lists ten distinct keys |
| StatusDisplay.SpaceBeforeCapitals | renderer.js:123 | after a space is put before each capital, the text never starts with a capital |
| StatusDisplay.ToUpperAscii | renderer.js:123 | `toUpperCase` on one character, by definition: `a`-`z` become `A`-`Z`, everything else is kept |
| StatusDisplay.UpperFirst | renderer.js:123 | `replace(/^./, …)` by definition: the first character, unless it is a line terminator, is upper-cased; FormatLabelRecoversKey uses it |
| StatusDisplay.FormatLabel | renderer.js:123 | the label of a key; FormatLabelRecoversKey gives its properties |
| StatusDisplay.DropUndoesSpacing | renderer.js:123 | removing the inserted spaces recovers the key |
| StatusDisplay.FormatLabelRecoversKey | renderer.js:123 | a label ends in `:`; dropping the colon and the inserted spaces gives the key with its first character upper-cased |
| StatusDisplay.DisplayedLabelsRecoverKeys | renderer.js:123 | for the displayed keys the label gives back the key itself |
| StatusDisplay.KeyOrderCapitalised | renderer.js:113-116 | every key of the display order is non-empty and starts with a capital |
| StatusDisplay.CapitalisedLabelRecoversKey | renderer.js:123 | for a key starting with a capital, dropping the label's colon and inserted spaces gives back the key itself |
| StatusDisplay.TaskNameLabel | renderer.js:123 | `TaskName` is labelled ` Task Name:` |
| StatusDisplay.ValueClasses | renderer.js:126-138 | `met` iff the last deadline result is `MET`; `missed` iff it is `MISSED`; `executing` iff the task status is `EXECUTING`; `missed-count-non-zero` iff the missed count is not `0`; every other key gets only `data-value` |
| StatusDisplay.PresentKeys | renderer.js:118-119 | no more keys than the display order has, each of them in the display order and in the dictionary |
| StatusDisplay.RowFor | renderer.js:119-138 | one key's row, by definition: its label, its value and its value classes; RowsFollowPresentKeys and StatusRowsSpec state that each shown row is this row of its key |
| StatusDisplay.RowsFor | renderer.js:118-142 | the rows for a key order; RowsFollowPresentKeys gives their properties |
| StatusDisplay.StatusRows | renderer.js:113-143 | at most ten rows, one per display-order key at most (StatusRowsSpec gives the rest) |
| StatusDisplay.DisplayRows | renderer.js:118-143 | the row loop: when the data has an own `hasOwnProperty` key it throws the TypeError at the first key and adds no row; otherwise it yields one row per present key, in display order |
| StatusDisplay.RowsFollowPresentKeys | renderer.js:118-142 | one row per present key, in order, whose value is the dictionary's value unchanged |
| StatusDisplay.PresentKeysExactly | renderer.js:118-119 | a key is shown iff it is in the display order and in the dictionary |
| StatusDisplay.PresentKeysInOrder | renderer.js:113-119 | shown keys appear in the relative order of the display order |
| StatusDisplay.PresentKeyCount | renderer.js:118-119 | the number of rows equals the number of display-order keys the dictionary has |
| StatusDisplay.StatusRowsSpec | renderer.js:113-143 | the rows are exactly the displayed keys present in the dictionary, in display order, with unchanged values |
| StatusDisplay.FillInput | renderer.js:101-109 | a non-empty input is never overwritten; an input changes iff it was empty and the status has a non-empty value for its key, which it then takes |
| Renderer.ReadErrorText | renderer.js:157-160 | the message for a failed status read |
| Renderer.WriteErrorDetail | renderer.js:49-55 | the ENOENT hint, the EACCES hint, or the raw error |
| Renderer.WriteErrorText | renderer.js:56 | "Error setting <name>: " followed by the detail |
| Renderer.PreCheckError | renderer.js:38 | the message of the renderer's own check of the value |
| Renderer.NotLoadedText | renderer.js:65-87 | the message of a button whose path is not loaded |
| Renderer.ParamLabel | renderer.js:65-87 | the name each button passes, by definition; ClickSet's contract passes it to the set-parameter handler |
| Renderer.PathFor | renderer.js:65-87 | the path a button writes to, if the paths are loaded |
| Renderer.IpcReadErrorText | renderer.js:165-168 | the message for an exception caught while refreshing |
| Renderer.DisplayRaisesIff | renderer.js:119 | the display raises a TypeError exactly when some line of the status text is keyed `hasOwnProperty`, which hides the dictionary's `hasOwnProperty` method |
| Renderer.ReadErrorTextIdentifiesNotFound | renderer.js:157-160 | a read failure shows the fixed not-found text iff its code is ENOENT, whatever the error's message |
| Renderer.WriteErrorHintsDiffer | renderer.js:49-55 | for every path, the ENOENT hint and the EACCES hint are different texts |
| Renderer.StatusView.constructor | renderer.js:1-10 | no paths loaded, empty inputs, empty panel and message |
| Renderer.StatusView.DisplayStatusMessage | renderer.js:26-34 | sets the message text and kind and nothing else |
| Renderer.StatusView.UpdateStatusDisplay | renderer.js:89-144 | without data the panel shows the unavailable notice and the inputs are kept; with data, empty inputs are filled, and the panel holds the status rows, or, when the dictionary has a `hasOwnProperty` entry, stays cleared while the TypeError is raised |
| Renderer.StatusView.UpdateData | renderer.js:146-170 | exactly one read of the status file and no write; on success the empty inputs are filled and the status is shown with the message kept, or, if the display raised, the panel is cleared and the caught TypeError reported; on failure the panel is cleared and the not-found text (for ENOENT) or the generic read error is shown |
| Renderer.StatusView.HandleSetParam | renderer.js:36-63 | for a value the validator accepts the numeric check passes; an empty or non-positive value, or one the validator rejects, causes no write and no read; otherwise exactly one write of the raw value; a successful write gives the success message and exactly one refresh, as for `updateData`; a failed one gives the ENOENT or EACCES hint with the path, or the raw error, and no refresh |
| Renderer.StatusView.ClickSet | renderer.js:65-87 | a button whose path is not loaded reports "<X> path not loaded." and touches no file; otherwise it sets the parameter from its own input under its own name |
| Renderer.StatusView.FetchParamPaths | renderer.js:12-24 | the paths are stored and the status is loaded exactly once |

## Left out

- Window and application lifecycle (`createWindow`, `activate`, `window-all-closed`): window plumbing with no logic.
- The preload bridge (`preload.js`) is not part of this model. It only forwards the three IPC calls, which the model makes as direct method calls.
- Actual file I/O and UTF-8 decoding: the file system is an oracle whose outcomes are arbitrary. Decoded text is a Dafny `string`.
- `console.log` and `console.error` output.
- IPC transport failures and the `catch` branches that report them (the "IPC Error setting" message, and the "could not load initial parameter paths" message): the model's calls into the main process cannot fail. The `catch` in `updateData` is modelled for the one exception the display itself raises.
- The one-second `setInterval` refresh and any interleaving of a refresh with a parameter write. These are concurrency matters. The code does not prevent overlapping refreshes.
- Renderer.StatusView.HandleSetParam: the pre-check `value <= 0` converts the text to a JavaScript number (NaN, floats, `Number()` parsing). It is abstracted as the boolean parameter `nonPositive`, constrained only to be false for the values the validator accepts. Only the empty-string test is modelled exactly.
- StatusDisplay.FormatLabel, StatusDisplay.UpperFirst, StatusDisplay.ToUpperAscii: `toUpperCase` on the first character is modelled for ASCII letters only. Other characters are kept as they are, because the displayed keys are ASCII.
- Renderer.StatusView.DisplayStatusMessage: the CSS class list of the message element is kept only as the message kind.
- The HTML markup and the CSS class of label cells: label cells always get `data-key`, and a row keeps only its label, value and value classes.
- The parsed status stays a string-to-string dictionary, as the code returns it. It is not a typed record of optional fields. Unknown keys are kept, and only display-order keys are shown.
- The write handler's reply on success carries the message "<name> set to <value> ms.", as the code does, not a parsed integer.
