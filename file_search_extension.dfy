/**
 * The `FileSearchExtension` class of main.py: `search` builds the command line
 * for the external `fd` tool, hands it to the tool and turns the tool's output
 * into a list of results; `get_open_in_terminal_script` chooses the action that
 * opens a terminal in a result's directory.
 *
 * The tool itself is not modelled: it is the parameter `run`, a function from
 * the argument vector to what the child process wrote on standard output and
 * standard error.
 */
module FileSearchExtension {
  import opened Wrappers
  import opened PyStr
  import PosixPath

  /** The type filter of a search: FILE_SEARCH_ALL, FILE_SEARCH_FILE or FILE_SEARCH_DIRECTORY. */
  datatype FileType = All | File | Directory

  /** The host's preferences as (key, value) pairs, in the order the host lists them. */
  type Preferences = seq<(string, string)>

  /** What the Python code raises instead of returning a result. */
  datatype Error =
    | UnboundKeywordId               // no preference value equals the keyword, so `keywordId` is never bound
    | MissingPreference(key: string) // `preferences[key]` for a key the host did not provide

  /** What the child process wrote: standard output (already decoded from UTF-8) and standard error. */
  datatype ToolOutput = ToolOutput(stdout: string, stderr: string)

  /** One entry of the list `search` returns: the dictionary with 'path', 'name' and 'icon'. */
  datatype SearchResult = SearchResult(path: string, name: string, icon: string)

  /** The launcher actions the extension hands back to the host. */
  datatype Action =
    | DoNothing
    | HideWindow
    | Open(path: string)
    | RunScript(script: string, args: seq<string>)

  /** Every command starts by running `fd` under a 15-second timeout at idle I/O priority, including hidden entries. */
  const CommandPrefix: seq<string> := ["timeout", "15s", "ionice", "-c", "3", "fd", "--hidden"]

  const FileIcon := "images/file.png"
  const FolderIcon := "images/folder.png"

  /** The terminal emulators that accept `--working-directory <path>`. */
  const RecognizedTerminals: seq<string> := ["gnome-terminal", "terminator", "tilix", "xfce-terminal"]

  /** `preferences[key]`: the value stored under `key`, or the KeyError Python raises when there is none. */
  function Lookup(prefs: Preferences, key: string): (r: Result<string, Error>)
    ensures r.Failure? <==> forall i :: 0 <= i < |prefs| ==> prefs[i].0 != key
    ensures r.Failure? ==> r.error == MissingPreference(key)
    ensures r.Success? ==> exists i :: 0 <= i < |prefs| && prefs[i] == (key, r.value)
  {
    if prefs == [] then Failure(MissingPreference(key))
    else if prefs[0].0 == key then Success(prefs[0].1)
    else Lookup(prefs[1..], key)
  }

  // ---------------------------------------------------------------------------
  // The command line

  /** The `-t` arguments for a type filter. */
  function TypeFilter(fileType: FileType): seq<string>
  {
    match fileType
    case All => []
    case File => ["-t", "f"]
    case Directory => ["-t", "d"]
  }

  /**
   * The pattern arguments: the query itself, or in extension mode `-e`, the text
   * after the query's last '.' and the text before it, cut with Python's slice
   * rules at the index `rfind` returns (-1 when there is no '.').
   */
  function PatternArgs(query: string, addExtension: bool): seq<string>
  {
    if addExtension then
      var index := RFind(query, '.');
      ["-e", SliceFrom(query, index + 1), SliceTo(query, index)]
    else [query]
  }

  /** The argument vector `search` hands to the child process. */
  function Command(query: string, fileType: FileType, addExtension: bool, baseDir: string): seq<string>
  {
    CommandPrefix + TypeFilter(fileType) + PatternArgs(query, addExtension) + [baseDir]
  }

  /**
   * The first half of `search`: the argument vector, built by appending to a
   * list; `preferences['base_dir']` supplies the last argument.
   */
  method BuildCommand(query: string, fileType: FileType, addExtension: bool, prefs: Preferences)
    returns (r: Result<seq<string>, Error>)
    ensures r.Failure? <==> Lookup(prefs, "base_dir").Failure?
    ensures r.Failure? ==> r.error == MissingPreference("base_dir")
    ensures r.Success? ==> r.value == Command(query, fileType, addExtension, Lookup(prefs, "base_dir").value)
  {
    var cmd := CommandPrefix;
    if fileType == File {
      cmd := cmd + ["-t"];
      cmd := cmd + ["f"];
    } else if fileType == Directory {
      cmd := cmd + ["-t"];
      cmd := cmd + ["d"];
    }
    if addExtension {
      cmd := cmd + ["-e"];
      var index := RFind(query, '.');
      cmd := cmd + [SliceFrom(query, index + 1)];
      cmd := cmd + [SliceTo(query, index)];
    } else {
      cmd := cmd + [query];
    }
    var baseDir := Lookup(prefs, "base_dir");
    if baseDir.Failure? {
      return Failure(baseDir.error);
    }
    cmd := cmd + [baseDir.value];
    r := Success(cmd);
  }

  /**
   * Every command is the fixed prefix, then `-t f`, `-t d` or nothing, then the
   * pattern arguments, and ends with the base directory.
   */
  lemma CommandLayout(query: string, fileType: FileType, addExtension: bool, baseDir: string)
    ensures var cmd := Command(query, fileType, addExtension, baseDir);
      && cmd[..7] == CommandPrefix
      && (fileType == File ==> cmd[7..9] == ["-t", "f"])
      && (fileType == Directory ==> cmd[7..9] == ["-t", "d"])
      && var n := if fileType == All then 7 else 9;
        cmd[n..|cmd| - 1] == PatternArgs(query, addExtension) && cmd[|cmd| - 1] == baseDir
  {
  }

  /** Without extension mode the query is passed on unchanged as one argument, just before the base directory. */
  lemma PlainQueryIsOneArgument(query: string, fileType: FileType, baseDir: string)
    ensures var cmd := Command(query, fileType, false, baseDir);
      && |cmd| == (if fileType == All then 9 else 11)
      && cmd[|cmd| - 2] == query
  {
  }

  /**
   * In extension mode, a query that holds a '.' becomes `-e`, the text after
   * its last '.' (which holds no '.'), and the text before it: the two put
   * back together around a '.' give the query.
   */
  lemma ExtensionSplitsAtLastDot(query: string)
    requires '.' in query
    ensures var args := PatternArgs(query, true);
      && |args| == 3 && args[0] == "-e"
      && args[2] + "." + args[1] == query
      && '.' !in args[1]
  {
    RFindFound(query, '.');
    var index := RFind(query, '.');
    assert query == query[..index] + "." + query[index + 1..];
  }

  /**
   * In extension mode, a query without a '.' makes `rfind` return -1: the
   * whole query becomes the extension and the query without its last
   * character becomes the pattern.
   */
  lemma ExtensionWithoutDot(query: string)
    requires '.' !in query
    ensures PatternArgs(query, true) == ["-e", query, if query == "" then "" else query[..|query| - 1]]
  {
    RFindFound(query, '.');
  }

  /**
   * The command line gives back the type filter, the mode and the base
   * directory it was built from, and the query too unless the query is one
   * without a '.' in extension mode.
   */
  lemma CommandDeterminesSearch(q1: string, t1: FileType, e1: bool, b1: string,
                                q2: string, t2: FileType, e2: bool, b2: string)
    requires Command(q1, t1, e1, b1) == Command(q2, t2, e2, b2)
    ensures t1 == t2 && e1 == e2 && b1 == b2
    ensures !e1 ==> q1 == q2
    ensures e1 && '.' in q1 && '.' in q2 ==> q1 == q2
  {
    var cmd := Command(q1, t1, e1, b1);
    CommandLayout(q1, t1, e1, b1);
    CommandLayout(q2, t2, e2, b2);
    if e1 && '.' in q1 && '.' in q2 {
      ExtensionSplitsAtLastDot(q1);
      ExtensionSplitsAtLastDot(q2);
      var n := if t1 == All then 7 else 9;
      assert cmd[n..|cmd| - 1] == PatternArgs(q1, true) == PatternArgs(q2, true);
    }
  }

  /**
   * Why the exception in `CommandDeterminesSearch` is needed: in extension mode
   * a non-empty query `q` without a '.' gives the same command as the different
   * query `q[:-1] + "." + q` (so "ab" collides with "a.ab").
   */
  lemma DotlessExtensionQueryCollides(q: string, fileType: FileType, baseDir: string)
    requires q != "" && '.' !in q
    ensures var dotted := q[..|q| - 1] + "." + q;
      && dotted != q
      && Command(q, fileType, true, baseDir) == Command(dotted, fileType, true, baseDir)
  {
    var dotted := q[..|q| - 1] + "." + q;
    var i := |q| - 1;
    assert dotted[i] == '.';
    assert forall k :: i < k < |dotted| ==> dotted[k] == q[k - i - 1];
    assert RFind(dotted, '.') == i;
    assert dotted[i + 1..] == q && dotted[..i] == q[..|q| - 1];
    ExtensionWithoutDot(q);
    assert PatternArgs(q, true) == PatternArgs(dotted, true);
  }

  // ---------------------------------------------------------------------------
  // The tool's output

  /** The non-empty '\n'-separated lines of the tool's standard output, in order. */
  function Lines(stdout: string): (lines: seq<string>)
    ensures forall i :: 0 <= i < |lines| ==> lines[i] != "" && '\n' !in lines[i]
  {
    var lines := NonEmpty(Split(stdout, '\n'));
    assert forall i :: 0 <= i < |lines| ==> lines[i] in Split(stdout, '\n');
    lines
  }

  /**
   * The result for one output line: its name is the path without the
   * extension `os.path.splitext` finds, and its icon says file exactly when
   * that extension is not empty, folder otherwise.
   */
  function Classify(path: string): (r: SearchResult)
    ensures r.path == path
    ensures r.icon == FileIcon <==> PosixPath.HasExtension(path)
    ensures r.icon == FolderIcon <==> !PosixPath.HasExtension(path)
    ensures forall d :: PosixPath.ExtensionAt(path, d) ==> r.name == path[..d]
    ensures r.icon == FolderIcon ==> r.name == path
  {
    PosixPath.SplitExtSpec(path);
    var split := PosixPath.SplitExt(path);
    SearchResult(path, split.0, if split.1 != "" then FileIcon else FolderIcon)
  }

  /** The results for a sequence of output lines, one each, in order. */
  function Classified(lines: seq<string>): seq<SearchResult>
  {
    seq(|lines|, i requires 0 <= i < |lines| => Classify(lines[i]))
  }

  /** One more output line adds its result to the end, or nothing when the line is empty. */
  lemma ParseStep(pieces: seq<string>, k: nat)
    requires k < |pieces|
    ensures Classified(NonEmpty(pieces[..k + 1]))
         == Classified(NonEmpty(pieces[..k])) + (if pieces[k] == "" then [] else [Classify(pieces[k])])
  {
    var line := pieces[k];
    NonEmptyAppend(pieces[..k], [line]);
    assert pieces[..k + 1] == pieces[..k] + [line];
    assert [line][1..] == [];
    assert NonEmpty([line]) == if line == "" then [] else [line];
    var before := NonEmpty(pieces[..k]);
    if line != "" {
      assert Classified(before + [line]) == Classified(before) + [Classify(line)];
    } else {
      assert before + [] == before;
    }
  }

  /** The second half of `search`: nothing when the tool wrote to standard error, otherwise one result per non-empty output line. */
  function Parsed(out: ToolOutput): seq<SearchResult>
  {
    if out.stderr != "" then [] else Classified(Lines(out.stdout))
  }

  /** The loop of `search` over the output lines, skipping empty ones as `filter(None, ...)` does. */
  method ParseOutput(out: ToolOutput) returns (result: seq<SearchResult>)
    ensures result == Parsed(out)
  {
    if out.stderr != "" {
      return [];
    }
    var files := Split(out.stdout, '\n');
    result := [];
    for k := 0 to |files|
      invariant result == Classified(NonEmpty(files[..k]))
    {
      var f := files[k];
      ParseStep(files, k);
      if f != "" {
        var split := PosixPath.SplitExt(f);
        var icon := FolderIcon;
        if split.1 != "" {
          icon := FileIcon;
        }
        assert SearchResult(f, split.0, icon) == Classify(f) by { assert split == PosixPath.SplitExt(f); }
        result := result + [SearchResult(f, split.0, icon)];
      }
    }
    assert files[..|files|] == files;
  }

  /** What `search` returns for a query, given the tool as `run`. */
  function SearchOutcome(query: string, fileType: FileType, addExtension: bool, prefs: Preferences,
                         run: seq<string> -> ToolOutput): Result<seq<SearchResult>, Error>
  {
    match Lookup(prefs, "base_dir")
    case Failure(e) => Failure(e)
    case Success(baseDir) => Success(Parsed(run(Command(query, fileType, addExtension, baseDir))))
  }

  /** `search`: build the command, run the tool on it, parse what it wrote. */
  method Search(query: string, fileType: FileType, addExtension: bool, prefs: Preferences,
                run: seq<string> -> ToolOutput)
    returns (r: Result<seq<SearchResult>, Error>)
    ensures r == SearchOutcome(query, fileType, addExtension, prefs, run)
  {
    var cmd := BuildCommand(query, fileType, addExtension, prefs);
    if cmd.Failure? {
      return Failure(cmd.error);
    }
    var out := run(cmd.value);
    var results := ParseOutput(out);
    r := Success(results);
  }

  /**
   * Anything on standard error means no results, whatever standard output
   * holds; otherwise the results are the non-empty output lines, in order,
   * one result each.
   */
  lemma ParsedResults(out: ToolOutput)
    ensures out.stderr != "" ==> Parsed(out) == []
    ensures out.stderr == "" ==>
      && |Parsed(out)| == |Lines(out.stdout)|
      && forall i :: 0 <= i < |Parsed(out)| ==> Parsed(out)[i] == Classify(Lines(out.stdout)[i])
  {
  }

  /**
   * The lines are exactly the pieces between '\n' characters that are not
   * empty: splitting loses nothing, and filtering keeps every non-empty piece
   * and only those.
   */
  lemma LinesAreNonEmptyPieces(stdout: string)
    ensures Join(Split(stdout, '\n'), '\n') == stdout
    ensures Lines(stdout) == NonEmpty(Split(stdout, '\n'))
    ensures forall x :: x in Lines(stdout) <==> x in Split(stdout, '\n') && x != ""
  {
    JoinSplit(stdout, '\n');
  }

  /** `fd` prints one path per line, each followed by '\n'. */
  function Terminated(paths: seq<string>): string
  {
    if paths == [] then "" else paths[0] + "\n" + Terminated(paths[1..])
  }

  /** Output in `fd`'s format is the paths joined by '\n' with one empty piece after the last separator. */
  lemma {:induction false} TerminatedIsJoin(paths: seq<string>)
    ensures Terminated(paths) == Join(paths + [""], '\n')
  {
    if paths != [] {
      TerminatedIsJoin(paths[1..]);
      assert (paths + [""])[1..] == paths[1..] + [""];
    }
  }

  /** Parsing output in `fd`'s format gives back exactly the paths it printed, in order. */
  lemma {:induction false} ToolOutputRoundTrip(paths: seq<string>)
    requires forall i :: 0 <= i < |paths| ==> paths[i] != "" && '\n' !in paths[i]
    ensures Lines(Terminated(paths)) == paths
  {
    TerminatedIsJoin(paths);
    var pieces := paths + [""];
    forall i | 0 <= i < |pieces| ensures '\n' !in pieces[i] {
      if i < |paths| {
        assert pieces[i] == paths[i];
      }
    }
    SplitJoin(pieces, '\n');
    NonEmptyAppend(paths, [""]);
    NonEmptyKeepsNonEmpty(paths);
  }

  /** A '.' right after a name character, followed by neither '.' nor '/', starts an extension: such a path gets the file icon. */
  lemma DotAfterNameStartsExtension(path: string, d: nat)
    requires 0 < d < |path| && path[d] == '.' && path[d - 1] != '.' && path[d - 1] != '/'
    requires forall k :: d < k < |path| ==> path[k] != '.' && path[k] != '/'
    ensures Classify(path).icon == FileIcon && Classify(path).name == path[..d]
  {
    assert forall k :: d - 1 <= k < d ==> path[k] != '/';
    assert PosixPath.ExtensionAt(path, d);
    assert PosixPath.HasExtension(path);
  }

  // ---------------------------------------------------------------------------
  // Opening a terminal

  /** The action for a terminal emulator name: a script that starts it in `path` when it is recognized, nothing otherwise. */
  function TerminalAction(terminal: string, path: string): Action
  {
    if terminal in RecognizedTerminals then RunScript(terminal, ["--working-directory", path]) else DoNothing
  }

  /**
   * `get_open_in_terminal_script`: fails only when the terminal preference is
   * missing, runs the terminal in `path` exactly when it is one of the
   * recognized four, and does nothing otherwise.
   */
  function GetOpenInTerminalScript(prefs: Preferences, path: string): (r: Result<Action, Error>)
    ensures r.Failure? <==> forall i :: 0 <= i < |prefs| ==> prefs[i].0 != "terminal_emulator"
    ensures r.Success? ==> (r.value.RunScript? <==> Lookup(prefs, "terminal_emulator").value in RecognizedTerminals)
    ensures r.Success? && r.value.RunScript? ==> r.value == RunScript(Lookup(prefs, "terminal_emulator").value, ["--working-directory", path])
    ensures r.Success? && !r.value.RunScript? ==> r.value == DoNothing
  {
    match Lookup(prefs, "terminal_emulator")
    case Failure(e) => Failure(e)
    case Success(terminal) => Success(TerminalAction(terminal, path))
  }
}
