# ulauncher-file-search, modelled in Dafny

The project models the decision logic of a Ulauncher extension that searches the file system with the
external `fd` tool (`main.py`). The extension does four things, and the model covers each of them:

- It turns a typed query into the argument vector for `fd`. The vector has a fixed prefix (`timeout 15s ionice -c 3 fd --hidden`), an optional `-t f` / `-t d` type filter, the pattern arguments and the base directory. In extension mode the pattern arguments are `-e <ext> <prefix>`, split at the query's last `.`.
- It turns what the tool wrote into results. Anything on standard error means no results. Otherwise each non-empty line of standard output becomes one result. A line gets the file icon when `os.path.splitext` finds an extension in it, and the folder icon otherwise.
- It works out the search mode from the keyword the user typed. The last preference whose value equals the keyword wins: `ff_kw` searches files, `ffe_kw` searches files by extension, `fd_kw` searches directories, and any other key searches everything.
- It shapes the answer. An argument shorter than two characters gives a "keep typing" item, and no results give a "no results" item that hides the window. Otherwise the answer holds at most 15 items, each with an `Open` action and an alternate "open in terminal" action.

Modules:

- `Wrappers` (`wrappers.dfy`) holds `Option` and `Result`.
- `PyStr` (`py_str.dfy`) holds the Python built-ins the code relies on: `str.rfind`, slices with negative bounds, `str.split`, `filter(None, …)` and `str.strip()`.
- `PosixPath` (`posix_path.dfy`) holds `os.path.splitext` as Python implements it for POSIX paths.
- `FileSearchExtension` (`file_search_extension.dfy`) holds `search` and `get_open_in_terminal_script`.
- `KeywordQueryEventListener` (`keyword_query_listener.dfy`) holds `on_event`.

The external tool is the parameter `run: seq<string> -> ToolOutput`, a function from the argument vector to the
tool's standard output and standard error. Python's exceptions become `Failure` values:

- `UnboundKeywordId` is the `UnboundLocalError` raised when no preference value equals the keyword.
- `MissingPreference(key)` is the `KeyError` for an absent `base_dir` or `terminal_emulator`.

Behaviour of the code the model keeps, though it may surprise:

- Files and folders are told apart by the `splitext` string heuristic, not by a file-system check.
- The "too short" test uses the raw argument, not the trimmed one. The search itself uses the trimmed query.
- In extension mode a query without a `.` is not searched literally. `rfind` returns -1, so the extension argument is the whole query and the pattern is the query minus its last character (`ExtensionWithoutDot`). As a consequence, every non-empty dot-less query `q` produces the same command as `q[:-1] + "." + q`; for example `"ab"` and `"a.ab"` (`DotlessExtensionQueryCollides`).
- No `-E` ignore arguments are ever added.
- The last matching keyword preference wins, not the first.

## Model

| member | source | states |
|---|---|---|
| PyStr.RFind | main.py:49 | `rfind` gives -1 or an index holding the character, and no later index holds it |
| PyStr.RFindFound | main.py:49 | `rfind` is non-negative exactly when the character occurs |
| PyStr.Split | main.py:65 | `split('\n')` yields at least one piece and no piece holds the separator |
| PyStr.JoinSplit | main.py:65 | joining the pieces of `split` with the separator gives back the string |
| PyStr.SplitJoin | main.py:65 | splitting a join of separator-free pieces gives back those pieces |
| PyStr.NonEmpty | main.py:66 | `filter(None, …)` keeps exactly the non-empty strings and only those |
| PyStr.NonEmptyAppend | main.py:66 | the filter distributes over concatenation, so it keeps the original order |
| PyStr.NonEmptyKeepsNonEmpty | main.py:66 | the filter leaves a sequence of non-empty strings unchanged |
| PyStr.StripStart | main.py:127 | `lstrip` removes a whitespace prefix and leaves no leading whitespace |
| PyStr.StripEnd | main.py:127 | `rstrip` removes a whitespace suffix and leaves no trailing whitespace |
| PyStr.Strip | main.py:127 | `strip` is a slice of the argument with only whitespace outside it and no whitespace at either end |
| PyStr.StripUnique | main.py:127 | any slice with that description is `strip`'s result |
| PosixPath.SplitExtSpec | main.py:72 | `splitext` splits the path in two; the extension is non-empty exactly when the last component has a `.` after a non-dot character, and it runs from that `.` to the end |
| PosixPath.NoDotNoExtension | main.py:72-76 | a path without any `.` has an empty extension |
| FileSearchExtension.Lookup | main.py:54 | `preferences[key]` fails exactly when no entry has the key, and otherwise returns a value stored under it |
| FileSearchExtension.BuildCommand | main.py:39-54 | the appended list is the command for the query, type filter and mode, ending with `base_dir`; it fails exactly when `base_dir` is missing |
| FileSearchExtension.CommandLayout | main.py:39-54 | every command is the fixed prefix, then `-t f`, `-t d` or nothing, then the pattern arguments, then the base directory |
| FileSearchExtension.PlainQueryIsOneArgument | main.py:52-54 | outside extension mode the query is one argument before the base directory; length 9 for ALL and 11 for FILE or DIR |
| FileSearchExtension.ExtensionSplitsAtLastDot | main.py:47-51 | with a `.` in the query: `-e`, a suffix without `.`, and a prefix, where prefix + "." + suffix is the query |
| FileSearchExtension.ExtensionWithoutDot | main.py:47-51 | without a `.`: `-e`, the whole query, and the query minus its last character |
| FileSearchExtension.CommandDeterminesSearch | main.py:39-54 | the command determines the type filter, the mode, the base directory and, except for dot-less extension queries, the query |
| FileSearchExtension.DotlessExtensionQueryCollides | main.py:47-51 | in extension mode a non-empty dot-less query `q` and the different query `q[:-1] + "." + q` give the same command |
| FileSearchExtension.Lines | main.py:65-66 | the parsed lines are non-empty and hold no newline |
| FileSearchExtension.Classify | main.py:72-82 | the result keeps the path; the icon is the file icon exactly when the path has an extension and the folder icon otherwise; the name is the path without its extension |
| FileSearchExtension.ParseOutput | main.py:61-84 | the loop over the output lines produces the parsed results |
| FileSearchExtension.Search | main.py:37-84 | `search` fails only for a missing `base_dir`, and otherwise parses what the tool answers for exactly the built command |
| FileSearchExtension.ParsedResults | main.py:61-84 | non-empty stderr gives no results whatever stdout holds; otherwise there is one result per non-empty line, in order |
| FileSearchExtension.LinesAreNonEmptyPieces | main.py:65-66 | the lines are exactly the non-empty `'\n'`-separated pieces of stdout, and splitting loses nothing |
| FileSearchExtension.TerminatedIsJoin | main.py:65 | newline-terminated output is the join of the paths with one empty last piece |
| FileSearchExtension.ToolOutputRoundTrip | main.py:65-71 | parsing newline-terminated paths gives back exactly those paths, in order |
| FileSearchExtension.DotAfterNameStartsExtension | main.py:72-76 | a `.` right after a name character with no later `.` or `/` gives the file icon and cuts the name there |
| FileSearchExtension.GetOpenInTerminalScript | main.py:86-94 | fails only without a terminal preference; runs the terminal with `--working-directory <path>` exactly for the four recognized terminals, and does nothing otherwise |
| KeywordQueryEventListener.LastKeyFor | main.py:114-116 | the key of the last preference whose value is the keyword, or none when no value is |
| KeywordQueryEventListener.ResolveKeywordId | main.py:114-116 | the loop that rebinds `keywordId` ends with the last matching key |
| KeywordQueryEventListener.ModeFor | main.py:117-125 | extension mode exactly for `ffe_kw`, files exactly for `ff_kw`/`ffe_kw`, directories exactly for `fd_kw`, everything otherwise |
| KeywordQueryEventListener.ShowResults | main.py:134-144 | the item loop yields one item per result among the first 15, or the terminal preference's KeyError |
| KeywordQueryEventListener.OnEvent | main.py:102-144 | `on_event` answers as the composed specification says |
| KeywordQueryEventListener.ShortArgumentKeepsTyping | main.py:105-110 | a missing argument or one under two characters gives exactly one "keep typing" item with `DoNothing`, whatever the tool would answer |
| KeywordQueryEventListener.UnknownKeywordRaises | main.py:112-119 | a long enough argument under a keyword no preference holds raises |
| KeywordQueryEventListener.SearchesStrippedArgument | main.py:112-127 | the last matching preference chooses the mode, and only the tool's answer to the command for the stripped argument matters |
| KeywordQueryEventListener.NoPathsHidesWindow | main.py:127-132 | a tool error or empty output gives exactly one "no results" item with `HideWindow`, naming the raw argument |
| KeywordQueryEventListener.ListsFirstPaths | main.py:127-144 | otherwise min(15, n) items, in order, named by the full path, with the parsed icon, `Open(path)`, and a terminal alternate exactly for recognized terminals, `DoNothing` otherwise |
| KeywordQueryEventListener.ResponseSize | main.py:102-144 | every answer holds between 1 and 15 items |

## Left out

- Launching the child process, `communicate`, and how `timeout` and `ionice` behave at run time (main.py:55-59). The tool is the parameter `run`, seen only through its standard output and standard error. A timed-out search is whatever output that function returns.
- A failure to start the child (`Popen` raising `OSError`, main.py:55-57) is not modelled: `run` always returns output.
- UTF-8 decoding of standard output (main.py:65). Standard output is taken as already decoded text, and standard error is taken as text whose emptiness is tested.
- Logging of standard error (main.py:62). It has no effect on the result.
- The Ulauncher framework (main.py:8-18, 32-35, 147-148): event subscription, `Extension.run`, and the item and action classes. The model uses the datatypes `ResultItem` (with constructors `ResultItem` and `SmallResultItem`) and `Action`. The event is given as its argument, an `Option<string>` for `get_argument()`, and its keyword string.
- Preferences are a sequence of (key, value) pairs in the host's order. `Lookup` takes the first entry with a key; a Python dict has unique keys, so this is the same.
- The `ipdb` import and the `start_time` class attribute (main.py:6-7, 99). They do not affect behaviour.
- Whitespace for `strip` is the set of characters CPython's `str.isspace` accepts (ASCII whitespace, the separators U+001C–U+001F, U+0085, U+00A0, U+1680, U+2000–U+200A, U+2028, U+2029, U+202F, U+205F, U+3000). The set follows CPython's Unicode tables as they are today.
