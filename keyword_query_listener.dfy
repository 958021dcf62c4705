/**
 * The `KeywordQueryEventListener` of main.py: `on_event` checks that the typed
 * argument is long enough, finds which keyword preference the typed keyword
 * belongs to, runs the matching search and turns at most 15 results into
 * launcher items.
 */
module KeywordQueryEventListener {
  import opened Wrappers
  import opened PyStr
  import opened FileSearchExtension

  /** An item the host renders: `ExtensionResultItem` (the placeholders) or `ExtensionSmallResultItem` (the results). */
  datatype ResultItem =
    | ResultItem(icon: string, name: string, onEnter: Action)
    | SmallResultItem(icon: string, name: string, onEnter: Action, onAltEnter: Action)

  /** How a keyword searches: the type filter and whether the query's last '.' starts an extension. */
  datatype SearchMode = SearchMode(fileType: FileType, addExtension: bool)

  const MaxItems := 15
  const PlaceholderIcon := "images/icon.png"

  /** Shown while the argument is shorter than two characters; choosing it does nothing. */
  const KeepTyping := ResultItem(PlaceholderIcon, "Keep typing your search criteria ...", DoNothing)

  /** Shown when the search found nothing; choosing it closes the launcher window. */
  function NoResults(query: string): ResultItem
  {
    ResultItem(PlaceholderIcon, "No Results found matching " + query, HideWindow)
  }

  function Min(a: int, b: int): int
  {
    if a < b then a else b
  }

  /**
   * The key of the last preference whose value equals `keyword`, or None when
   * no preference value does.
   */
  function LastKeyFor(prefs: Preferences, keyword: string): (r: Option<string>)
    ensures r.None? <==> forall i :: 0 <= i < |prefs| ==> prefs[i].1 != keyword
    ensures r.Some? ==> exists i :: 0 <= i < |prefs| && prefs[i] == (r.value, keyword)
                                    && forall j :: i < j < |prefs| ==> prefs[j].1 != keyword
  {
    if prefs == [] then None
    else if prefs[|prefs| - 1].1 == keyword then Some(prefs[|prefs| - 1].0)
    else LastKeyFor(prefs[..|prefs| - 1], keyword)
  }

  /** The loop of `on_event` over the preferences, which rebinds `keywordId` at every match. */
  method ResolveKeywordId(prefs: Preferences, keyword: string) returns (keywordId: Option<string>)
    ensures keywordId == LastKeyFor(prefs, keyword)
  {
    keywordId := None;
    for i := 0 to |prefs|
      invariant keywordId == LastKeyFor(prefs[..i], keyword)
    {
      var (kwId, kw) := prefs[i];
      if kw == keyword {
        keywordId := Some(kwId);
      }
      assert prefs[..i + 1][..i] == prefs[..i];
    }
    assert prefs[..|prefs|] == prefs;
  }

  /**
   * The search mode of a keyword id: "ff_kw" searches files, "ffe_kw" files by
   * extension, "fd_kw" directories, and any other id everything.
   */
  function ModeFor(keywordId: string): (m: SearchMode)
    ensures m.addExtension <==> keywordId == "ffe_kw"
    ensures m.fileType == File <==> keywordId == "ff_kw" || keywordId == "ffe_kw"
    ensures m.fileType == Directory <==> keywordId == "fd_kw"
  {
    if keywordId == "ff_kw" then SearchMode(File, false)
    else if keywordId == "ffe_kw" then SearchMode(File, true)
    else if keywordId == "fd_kw" then SearchMode(Directory, false)
    else SearchMode(All, false)
  }

  /** The item for one result: named by its full path, opened on enter, opened in a terminal on alt-enter. */
  function ItemFor(result: SearchResult, terminal: string): ResultItem
  {
    SmallResultItem(result.icon, result.path, Open(result.path), TerminalAction(terminal, result.path))
  }

  /** The items for the first 15 results, in order. */
  function Items(results: seq<SearchResult>, terminal: string): seq<ResultItem>
  {
    seq(Min(MaxItems, |results|), i requires 0 <= i < Min(MaxItems, |results|) => ItemFor(results[i], terminal))
  }

  /**
   * The items for a non-empty list of results, or the KeyError of the first
   * `get_open_in_terminal_script` call when the terminal preference is missing.
   */
  function Shown(results: seq<SearchResult>, prefs: Preferences): Result<seq<ResultItem>, Error>
  {
    if results == [] then Success([])
    else
      match Lookup(prefs, "terminal_emulator")
      case Failure(e) => Failure(e)
      case Success(terminal) => Success(Items(results, terminal))
  }

  /** The loop at the end of `on_event` over `results[:15]`, asking for the terminal action of each. */
  method ShowResults(results: seq<SearchResult>, prefs: Preferences) returns (r: Result<seq<ResultItem>, Error>)
    ensures r == Shown(results, prefs)
  {
    var shown := if |results| <= MaxItems then results else results[..MaxItems];
    var items: seq<ResultItem> := [];
    for i := 0 to |shown|
      invariant |items| == i
      invariant i > 0 ==> Lookup(prefs, "terminal_emulator").Success?
      invariant i > 0 ==> forall k :: 0 <= k < i ==> items[k] == ItemFor(shown[k], Lookup(prefs, "terminal_emulator").value)
    {
      var alt := GetOpenInTerminalScript(prefs, shown[i].path);
      if alt.Failure? {
        return Failure(alt.error);
      }
      items := items + [SmallResultItem(shown[i].icon, shown[i].path, Open(shown[i].path), alt.value)];
    }
    if results != [] {
      assert items == Items(results, Lookup(prefs, "terminal_emulator").value);
    }
    r := Success(items);
  }

  /** What `on_event` returns for an event with `argument` and `keyword`, given the tool as `run`. */
  function Response(argument: Option<string>, keyword: string, prefs: Preferences,
                    run: seq<string> -> ToolOutput): Result<seq<ResultItem>, Error>
  {
    if argument.None? || |argument.value| < 2 then Success([KeepTyping])
    else
      match LastKeyFor(prefs, keyword)
      case None => Failure(UnboundKeywordId)
      case Some(keywordId) =>
        var mode := ModeFor(keywordId);
        match SearchOutcome(Strip(argument.value), mode.fileType, mode.addExtension, prefs, run)
        case Failure(e) => Failure(e)
        case Success(results) =>
          if results == [] then Success([NoResults(argument.value)])
          else Shown(results, prefs)
  }

  /** `on_event`. */
  method OnEvent(argument: Option<string>, keyword: string, prefs: Preferences, run: seq<string> -> ToolOutput)
    returns (r: Result<seq<ResultItem>, Error>)
    ensures r == Response(argument, keyword, prefs, run)
  {
    if argument.None? || |argument.value| < 2 {
      return Success([KeepTyping]);
    }
    var query := argument.value;
    var keywordId := ResolveKeywordId(prefs, keyword);
    if keywordId.None? {
      return Failure(UnboundKeywordId);
    }
    var addExtension := false;
    var fileType := All;
    if keywordId.value == "ff_kw" {
      fileType := File;
    }
    if keywordId.value == "ffe_kw" {
      fileType := File;
      addExtension := true;
    } else if keywordId.value == "fd_kw" {
      fileType := Directory;
    }
    assert SearchMode(fileType, addExtension) == ModeFor(keywordId.value);

    var results := Search(Strip(query), fileType, addExtension, prefs, run);
    if results.Failure? {
      return Failure(results.error);
    }
    if results.value == [] {
      return Success([NoResults(query)]);
    }

    r := ShowResults(results.value, prefs);
  }

  // ---------------------------------------------------------------------------
  // What `on_event` promises

  /** An argument that is missing or shorter than two characters gives the one "keep typing" item and never consults the tool. */
  lemma ShortArgumentKeepsTyping(argument: Option<string>, keyword: string, prefs: Preferences,
                                 run: seq<string> -> ToolOutput, other: seq<string> -> ToolOutput)
    requires argument.None? || |argument.value| < 2
    ensures Response(argument, keyword, prefs, run) == Success([ResultItem(PlaceholderIcon, "Keep typing your search criteria ...", DoNothing)])
    ensures Response(argument, keyword, prefs, run) == Response(argument, keyword, prefs, other)
  {
  }

  /** A long enough argument under a keyword no preference holds raises instead of answering. */
  lemma UnknownKeywordRaises(argument: Option<string>, keyword: string, prefs: Preferences, run: seq<string> -> ToolOutput)
    requires argument.Some? && |argument.value| >= 2
    requires forall i :: 0 <= i < |prefs| ==> prefs[i].1 != keyword
    ensures Response(argument, keyword, prefs, run) == Failure(UnboundKeywordId)
  {
  }

  /**
   * The last preference holding the keyword decides the search: "ff_kw" files,
   * "ffe_kw" files with the query split at its last '.', "fd_kw" directories,
   * anything else everything; the tool runs on the stripped argument and the
   * response depends on nothing the tool would answer for any other command.
   */
  lemma SearchesStrippedArgument(argument: Option<string>, keyword: string, prefs: Preferences,
                                 run: seq<string> -> ToolOutput, other: seq<string> -> ToolOutput,
                                 i: nat, baseDir: string)
    requires argument.Some? && |argument.value| >= 2
    requires i < |prefs| && prefs[i].1 == keyword
    requires forall j :: i < j < |prefs| ==> prefs[j].1 != keyword
    requires Lookup(prefs, "base_dir") == Success(baseDir)
    requires var cmd := Command(Strip(argument.value), ModeFor(prefs[i].0).fileType, ModeFor(prefs[i].0).addExtension, baseDir);
      run(cmd) == other(cmd)
    ensures Response(argument, keyword, prefs, run) == Response(argument, keyword, prefs, other)
    ensures LastKeyFor(prefs, keyword) == Some(prefs[i].0)
  {
    var k :| 0 <= k < |prefs| && prefs[k] == (LastKeyFor(prefs, keyword).value, keyword)
             && forall j :: k < j < |prefs| ==> prefs[j].1 != keyword;
    assert k == i;
  }

  /** When the tool reports an error or prints no path, the answer is the one "no results" item, which closes the window. */
  lemma NoPathsHidesWindow(argument: Option<string>, keyword: string, prefs: Preferences,
                           run: seq<string> -> ToolOutput, keywordId: string, baseDir: string)
    requires argument.Some? && |argument.value| >= 2
    requires LastKeyFor(prefs, keyword) == Some(keywordId)
    requires Lookup(prefs, "base_dir") == Success(baseDir)
    requires var out := run(Command(Strip(argument.value), ModeFor(keywordId).fileType, ModeFor(keywordId).addExtension, baseDir));
      out.stderr != "" || Lines(out.stdout) == []
    ensures Response(argument, keyword, prefs, run)
         == Success([ResultItem(PlaceholderIcon, "No Results found matching " + argument.value, HideWindow)])
  {
  }

  /**
   * When the tool prints paths and no error, the answer lists the first 15 of
   * them in order, each named by its full path, opened on enter, and opened in
   * the configured terminal on alt-enter exactly when that terminal is one of
   * the recognized four, doing nothing on alt-enter otherwise.
   */
  lemma ListsFirstPaths(argument: Option<string>, keyword: string, prefs: Preferences,
                        run: seq<string> -> ToolOutput, keywordId: string, baseDir: string, terminal: string)
    requires argument.Some? && |argument.value| >= 2
    requires LastKeyFor(prefs, keyword) == Some(keywordId)
    requires Lookup(prefs, "base_dir") == Success(baseDir)
    requires Lookup(prefs, "terminal_emulator") == Success(terminal)
    requires var out := run(Command(Strip(argument.value), ModeFor(keywordId).fileType, ModeFor(keywordId).addExtension, baseDir));
      out.stderr == "" && Lines(out.stdout) != []
    ensures var out := run(Command(Strip(argument.value), ModeFor(keywordId).fileType, ModeFor(keywordId).addExtension, baseDir));
      var paths := Lines(out.stdout);
      && Response(argument, keyword, prefs, run).Success?
      && var items := Response(argument, keyword, prefs, run).value;
      && |items| == Min(MaxItems, |paths|)
      && forall k :: 0 <= k < |items| ==>
        && items[k].SmallResultItem?
        && items[k].name == paths[k]
        && items[k].icon == Classify(paths[k]).icon
        && items[k].onEnter == Open(paths[k])
        && (items[k].onAltEnter.RunScript? <==> terminal in RecognizedTerminals)
        && (terminal !in RecognizedTerminals ==> items[k].onAltEnter == DoNothing)
        && (terminal in RecognizedTerminals ==> items[k].onAltEnter == RunScript(terminal, ["--working-directory", paths[k]]))
  {
    var out := run(Command(Strip(argument.value), ModeFor(keywordId).fileType, ModeFor(keywordId).addExtension, baseDir));
    ParsedResults(out);
    var results := Parsed(out);
    assert Response(argument, keyword, prefs, run) == Success(Items(results, terminal));
    forall k | 0 <= k < Min(MaxItems, |results|)
      ensures Items(results, terminal)[k] == ItemFor(Classify(Lines(out.stdout)[k]), terminal)
    {
    }
  }

  /** Every answer `on_event` gives holds at least one item and at most 15. */
  lemma ResponseSize(argument: Option<string>, keyword: string, prefs: Preferences, run: seq<string> -> ToolOutput)
    ensures var r := Response(argument, keyword, prefs, run);
      r.Success? ==> 1 <= |r.value| <= MaxItems
  {
  }
}
