/** The file browser screen as a state machine: the current directory,
    confined to the storage root by a string-prefix test, the rows handed
    to the adapter, the directory filter, the "Go Back" row, and the
    navigation on a click or the BACK key. */
module Browser {
  import opened Wrappers
  import opened Text
  import opened VideoFiles
  import opened FileManager
  import opened JavaFile
  import opened Settings
  import opened SettingsManager
  import opened FileAdapter

  /** What the screen reads from its surroundings: the file system, the
      storage root (`Environment.getExternalStorageDirectory()`), and the
      working directory that relative paths resolve against. */
  datatype Env = Env(fs: FileSystem, root: string, userDir: string)

  datatype Browser = Browser(currentPath: string, adapter: Adapter, emptyStateShown: bool)

  // ---------------------------------------------------------------------
  // Paths

  /** `isValidPath(path)`. */
  predicate IsValidPath(env: Env, path: string) {
    |path| > 0 && IsExistingDirectory(env.fs, path) && StartsWith(path, env.root)
  }

  /** `isAtRoot()`. */
  predicate IsAtRoot(env: Env, path: string) {
    path == env.root || path == env.root + "/"
  }

  /** The directory the screen opens on: the saved one when it is valid,
      otherwise the root. */
  function StartPath(env: Env, saved: string): (r: string)
    ensures StartsWith(r, env.root)
    ensures r == saved <== IsValidPath(env, saved)
    ensures !IsValidPath(env, saved) ==> r == env.root
  {
    if IsValidPath(env, saved) then saved else env.root
  }

  /** The safety check at the top of `loadFiles`. */
  function Confine(env: Env, path: string): (r: string)
    ensures StartsWith(r, env.root)
    ensures StartsWith(path, env.root) ==> r == path
    ensures !StartsWith(path, env.root) ==> r == env.root
  {
    if StartsWith(path, env.root) then path else env.root
  }

  // ---------------------------------------------------------------------
  // The directory filter

  /** Lower-cases each token and keeps the non-empty ones. */
  function LowerTokens(ws: seq<string>): (r: seq<string>)
    ensures |r| <= |ws|
    ensures forall t :: t in r ==> |t| > 0 && Lower(t) == t
    decreases |ws|
  {
    if |ws| == 0 then []
    else
      var w := Lower(ws[0]);
      (if |w| > 0 then [w] else []) + LowerTokens(ws[1..])
  }

  /** The filter tokens of `loadFiles`: the trimmed filter split on runs of
      whitespace, lower-cased, empty pieces dropped. */
  function FilterTokens(filter: string): (r: seq<string>)
    ensures forall t :: t in r ==> |t| > 0 && Lower(t) == t
  {
    var f := Trim(filter);
    if |f| > 0 then LowerTokens(Tokens(f)) else []
  }

  /** There are no tokens exactly when the filter trims to nothing, and
      otherwise the tokens are the words of the trimmed filter, in order
      and lower-cased. */
  lemma FilterTokensIff(filter: string)
    ensures FilterTokens(filter) == [] <==> Trim(filter) == []
    ensures FilterTokens(filter) == LowerAll(Tokens(Trim(filter)))
  {
    var f := Trim(filter);
    TokensWellFormed(f);
    LowerTokensOfWords(Tokens(f));
    if |f| > 0 {
      TokensEmptyIff(f);
      assert !IsSpace(f[0]);
    }
  }

  /** Lower-cases every word. */
  function LowerAll(ws: seq<string>): (r: seq<string>)
    ensures |r| == |ws|
    ensures forall k :: 0 <= k < |ws| ==> r[k] == Lower(ws[k])
    decreases |ws|
  {
    if |ws| == 0 then [] else [Lower(ws[0])] + LowerAll(ws[1..])
  }

  lemma {:induction false} LowerTokensOfWords(ws: seq<string>)
    requires forall k :: 0 <= k < |ws| ==> |ws[k]| > 0
    ensures LowerTokens(ws) == LowerAll(ws)
    decreases |ws|
  {
    if |ws| > 0 {
      assert |Lower(ws[0])| > 0;
      LowerTokensOfWords(ws[1..]);
    }
  }

  /** `filters.any { name.contains(it) }`. */
  function AnyContains(tokens: seq<string>, name: string): (r: bool)
    ensures r <==> exists t :: t in tokens && Contains(name, t)
    decreases |tokens|
  {
    if |tokens| == 0 then false
    else
      var rest := AnyContains(tokens[1..], name);
      assert rest ==> exists t :: t in tokens && Contains(name, t) by {
        if rest {
          var t :| t in tokens[1..] && Contains(name, t);
          assert t in tokens;
        }
      }
      assert tokens[0] in tokens;
      assert (exists t :: t in tokens && Contains(name, t)) ==> Contains(name, tokens[0]) || rest by {
        if t :| t in tokens && Contains(name, t) {
          if t != tokens[0] {
            assert t in tokens[1..];
          }
        }
      }
      Contains(name, tokens[0]) || rest
  }

  /** With tokens, a row stays when it is a file or a directory whose
      lower-cased name holds one of them. */
  predicate Keeps(tokens: seq<string>, v: VideoFile) {
    !v.isDirectory || AnyContains(tokens, Lower(v.name))
  }

  function KeepMatching(rows: seq<VideoFile>, tokens: seq<string>): (r: seq<VideoFile>)
    ensures forall v :: v in r <==> v in rows && Keeps(tokens, v)
    ensures |r| <= |rows|
    decreases |rows|
  {
    if |rows| == 0 then []
    else (if Keeps(tokens, rows[0]) then [rows[0]] else []) + KeepMatching(rows[1..], tokens)
  }

  /** The filtering step of `loadFiles`: without tokens the listing is
      untouched. */
  function FilterListing(rows: seq<VideoFile>, tokens: seq<string>): (r: seq<VideoFile>)
    ensures tokens == [] ==> r == rows
    ensures tokens != [] ==> forall v :: v in r <==>
      v in rows && (!v.isDirectory || exists t :: t in tokens && Contains(Lower(v.name), t))
  {
    if tokens == [] then rows else KeepMatching(rows, tokens)
  }

  /** Filtering keeps relative order: it distributes over concatenation. */
  lemma {:induction false} FilterAppend(a: seq<VideoFile>, b: seq<VideoFile>, tokens: seq<string>)
    ensures FilterListing(a + b, tokens) == FilterListing(a, tokens) + FilterListing(b, tokens)
    decreases |a|
  {
    if tokens != [] && |a| > 0 {
      assert (a + b)[1..] == a[1..] + b;
      FilterAppend(a[1..], b, tokens);
    } else if tokens != [] {
      assert a + b == b;
    }
  }

  /** The files of a listing, in order. */
  function FilesOf(rows: seq<VideoFile>): (r: seq<VideoFile>)
    ensures forall v :: v in r <==> v in rows && !v.isDirectory
    decreases |rows|
  {
    if |rows| == 0 then []
    else (if rows[0].isDirectory then [] else [rows[0]]) + FilesOf(rows[1..])
  }

  /** The filter never touches a file: the files come through, all of
      them and in the same order. */
  lemma {:induction false} FilterKeepsFiles(rows: seq<VideoFile>, tokens: seq<string>)
    ensures FilesOf(FilterListing(rows, tokens)) == FilesOf(rows)
    decreases |rows|
  {
    if tokens != [] && |rows| > 0 {
      FilterKeepsFiles(rows[1..], tokens);
      var head := if Keeps(tokens, rows[0]) then [rows[0]] else [];
      FilesAppend(head, KeepMatching(rows[1..], tokens));
    }
  }

  lemma {:induction false} FilesAppend(a: seq<VideoFile>, b: seq<VideoFile>)
    ensures FilesOf(a + b) == FilesOf(a) + FilesOf(b)
    decreases |a|
  {
    if |a| > 0 {
      assert (a + b)[1..] == a[1..] + b;
      FilesAppend(a[1..], b);
    } else {
      assert a + b == b;
    }
  }

  // ---------------------------------------------------------------------
  // The listing

  const GoBackName := ".. [Go Back]"

  /** The pseudo-entry that leads to the parent directory. */
  function GoBackRow(parent: string): VideoFile {
    VideoFile(parent, GoBackName, 0, None, 0, true)
  }

  /** The "Go Back" row, present when the path is not the root and
      `File(path).parentFile` exists. */
  function GoBackRows(env: Env, path: string): (r: seq<VideoFile>)
    ensures |r| <= 1
    ensures |r| == 1 <==> !IsAtRoot(env, path) && ParentFile(env.userDir, path).Some?
    ensures |r| == 1 ==> r[0] == GoBackRow(ParentFile(env.userDir, path).value)
  {
    if IsAtRoot(env, path) then []
    else
      match ParentFile(env.userDir, path)
      case None => []
      case Some(parent) => [GoBackRow(parent)]
  }

  /** The rows `loadFiles` builds: the "Go Back" row first, then the
      directory's listing after the filter. */
  function Listing(env: Env, path: string, filter: string): seq<VideoFile> {
    GoBackRows(env, path) + FilterListing(GetFilesInDirectory(Lookup(env.fs, path)), FilterTokens(filter))
  }

  /** The "Go Back" row heads the listing when the path is below the root
      and has a parent, and the rest is the filtered directory listing. */
  lemma ListingShape(env: Env, path: string, filter: string)
    ensures var r := Listing(env, path, filter);
      && (!IsAtRoot(env, path) && ParentFile(env.userDir, path).Some? ==>
            |r| > 0 && r[0] == GoBackRow(ParentFile(env.userDir, path).value))
      && (IsAtRoot(env, path) || ParentFile(env.userDir, path).None? ==>
            r == FilterListing(GetFilesInDirectory(Lookup(env.fs, path)), FilterTokens(filter)))
  {
  }

  // ---------------------------------------------------------------------
  // Loading a directory

  /** `loadFiles()`. The path is first confined to the root. When the
      settings cannot be read the exception is caught and nothing else
      happens; otherwise a non-empty listing replaces the adapter's rows
      (an empty one shows the empty-state text and leaves the adapter
      alone) and the path is saved as the last directory. */
  function LoadFiles(env: Env, b: Browser, prefs: Prefs): (r: (Browser, Prefs))
    ensures StartsWith(r.0.currentPath, env.root)
    ensures r.0.currentPath == Confine(env, b.currentPath)
    ensures GetAppSettings(prefs).Err? ==> r.1 == prefs && r.0 == b.(currentPath := r.0.currentPath)
    ensures GetAppSettings(prefs).Ok? ==>
      var rows := Listing(env, r.0.currentPath, GetAppSettings(prefs).value.directoryFilter);
      && r.1 == SaveLastDirectory(prefs, r.0.currentPath)
      && r.0.emptyStateShown == (rows == [])
      && r.0.adapter == (if rows == [] then b.adapter else UpdateFiles(b.adapter, rows))
  {
    var path := Confine(env, b.currentPath);
    match GetAppSettings(prefs)
    case Err(_) => (b.(currentPath := path), prefs)
    case Ok(settings) =>
      var rows := Listing(env, path, settings.directoryFilter);
      var b' :=
        if rows == [] then b.(currentPath := path, emptyStateShown := true)
        else b.(currentPath := path, adapter := UpdateFiles(b.adapter, rows), emptyStateShown := false);
      (b', SaveLastDirectory(prefs, path))
  }

  /** The settings the store returns never carry a directory filter, so
      the listing `loadFiles` shows is never filtered: every directory of
      the path is listed, whatever was typed on the settings screen. */
  lemma ListingNeverFiltered(env: Env, b: Browser, prefs: Prefs)
    requires GetAppSettings(prefs).Ok?
    ensures var b' := LoadFiles(env, b, prefs).0;
      var rows := GoBackRows(env, b'.currentPath) + GetFilesInDirectory(Lookup(env.fs, b'.currentPath));
      b'.adapter == (if rows == [] then b.adapter else UpdateFiles(b.adapter, rows))
  {
  }

  /** A directory the screen has loaded is the one it opens on next time,
      provided it still exists. */
  lemma LoadThenRestart(env: Env, b: Browser, prefs: Prefs)
    requires GetAppSettings(prefs).Ok?
    requires var path := LoadFiles(env, b, prefs).0.currentPath;
      |path| > 0 && IsExistingDirectory(env.fs, path)
    ensures var (b', prefs') := LoadFiles(env, b, prefs);
      GetLastDirectory(prefs') == Ok(b'.currentPath) && StartPath(env, b'.currentPath) == b'.currentPath
  {
    var (b', prefs') := LoadFiles(env, b, prefs);
    LastDirectoryRoundTrip(prefs, b'.currentPath);
  }

  /** Building the screen: the adapter takes the two switches from the
      settings and starts empty, the path is the saved directory when it
      is valid and the root otherwise, and the first load runs when the
      storage permission is held. A failure to read the settings aborts
      the set-up. */
  function Start(env: Env, prefs: Prefs, granted: bool): (r: Result<(Browser, Prefs), SettingsError>)
    ensures r.Err? <==> GetAppSettings(prefs).Err? || GetLastDirectory(prefs).Err?
    ensures r.Ok? ==>
      && r.value.0.currentPath == StartPath(env, GetLastDirectory(prefs).value)
      && r.value.0.adapter.showFileSize == GetAppSettings(prefs).value.showFileSize
      && r.value.0.adapter.showDuration == GetAppSettings(prefs).value.showDuration
      && (!granted ==> r.value.0.adapter.files == [] && r.value.1 == prefs)
    ensures r.Ok? && granted ==>
      var path := r.value.0.currentPath;
      && r.value.1 == SaveLastDirectory(prefs, path)
      && r.value.0.adapter.files == Listing(env, path, "")
      && r.value.0.emptyStateShown == (r.value.0.adapter.files == [])
  {
    var settings :- GetAppSettings(prefs);
    var saved :- GetLastDirectory(prefs);
    var b := Browser(StartPath(env, saved), Adapter([], settings.showFileSize, settings.showDuration), false);
    if granted then Ok(LoadFiles(env, b, prefs)) else Ok((b, prefs))
  }

  /** `onResume()`: a fresh, empty adapter with the current switches, then
      a reload. Here a failure to read the settings is not caught. */
  function Resume(env: Env, b: Browser, prefs: Prefs): (r: Result<(Browser, Prefs), SettingsError>)
    ensures GetAppSettings(prefs).Err? <==> r.Err?
    ensures r.Ok? ==>
      && r.value.0.currentPath == Confine(env, b.currentPath)
      && r.value.0.adapter.showFileSize == GetAppSettings(prefs).value.showFileSize
      && r.value.0.adapter.showDuration == GetAppSettings(prefs).value.showDuration
    ensures r.Ok? ==>
      var path := r.value.0.currentPath;
      && r.value.1 == SaveLastDirectory(prefs, path)
      && r.value.0.adapter.files == Listing(env, path, "")
      && r.value.0.emptyStateShown == (r.value.0.adapter.files == [])
  {
    var settings :- GetAppSettings(prefs);
    Ok(LoadFiles(env, b.(adapter := Adapter([], settings.showFileSize, settings.showDuration)), prefs))
  }

  // ---------------------------------------------------------------------
  // Navigation

  datatype ClickOutcome = Navigated(browser: Browser, prefs: Prefs) | OpenPlayer(filePath: string)

  /** `onFileClick(file)`: a directory becomes the current path and is
      loaded; a file is handed to the player, the browser unchanged. */
  function OnFileClick(env: Env, b: Browser, prefs: Prefs, file: VideoFile): (r: ClickOutcome)
    ensures r.Navigated? <==> file.isDirectory
    ensures r.Navigated? ==> r.browser.currentPath == Confine(env, file.path)
    ensures r.OpenPlayer? ==> r.filePath == file.path
    ensures r.Navigated? && GetAppSettings(prefs).Ok? ==>
      var path := r.browser.currentPath;
      var rows := Listing(env, path, "");
      && r.prefs == SaveLastDirectory(prefs, path)
      && r.browser.emptyStateShown == (rows == [])
      && r.browser.adapter == (if rows == [] then b.adapter else UpdateFiles(b.adapter, rows))
    ensures r.Navigated? && GetAppSettings(prefs).Err? ==>
      r.prefs == prefs && r.browser == b.(currentPath := r.browser.currentPath)
  {
    if file.isDirectory then
      var (b', prefs') := LoadFiles(env, b.(currentPath := file.path), prefs);
      Navigated(b', prefs')
    else OpenPlayer(file.path)
  }

  /** Where BACK leads from below the root: the parent when it exists and
      lies under the root (by prefix), otherwise the root itself. */
  function BackTarget(env: Env, path: string): (r: string)
    ensures StartsWith(r, env.root)
    ensures var p := ParentFile(env.userDir, path);
      r == (if p.Some? && StartsWith(p.value, env.root) then p.value else env.root)
  {
    match ParentFile(env.userDir, path)
    case Some(parent) => if StartsWith(parent, env.root) then parent else env.root
    case None => env.root
  }

  datatype Key = Back | Menu | OtherKey

  datatype KeyOutcome = Handled(browser: Browser, prefs: Prefs) | SettingsOpened | NotHandled

  /** `onKeyDown(keyCode, event)`: BACK below the root goes up and reloads;
      BACK at the root and every other key but MENU go to the default
      handler (for BACK, leaving the app). */
  function OnKeyDown(env: Env, b: Browser, prefs: Prefs, key: Key): (r: KeyOutcome)
    ensures key == Back ==> (r.NotHandled? <==> IsAtRoot(env, b.currentPath))
    ensures key == Back && !IsAtRoot(env, b.currentPath) ==>
      r.Handled? && r.browser.currentPath == BackTarget(env, b.currentPath)
    ensures key == Back && !IsAtRoot(env, b.currentPath) && GetAppSettings(prefs).Ok? ==>
      var path := r.browser.currentPath;
      var rows := Listing(env, path, "");
      && r.prefs == SaveLastDirectory(prefs, path)
      && r.browser.emptyStateShown == (rows == [])
      && r.browser.adapter == (if rows == [] then b.adapter else UpdateFiles(b.adapter, rows))
    ensures key == Back && !IsAtRoot(env, b.currentPath) && GetAppSettings(prefs).Err? ==>
      r.prefs == prefs && r.browser == b.(currentPath := r.browser.currentPath)
    ensures key == Menu <==> r.SettingsOpened?
    ensures key == OtherKey ==> r.NotHandled?
  {
    match key
    case Back =>
      if IsAtRoot(env, b.currentPath) then NotHandled
      else
        var (b', prefs') := LoadFiles(env, b.(currentPath := BackTarget(env, b.currentPath)), prefs);
        Handled(b', prefs')
    case Menu => SettingsOpened
    case OtherKey => NotHandled
  }

  /** BACK below the root on an absolute path always moves up: the new
      path is the root, or a strictly shorter prefix of the old one. */
  lemma BackMovesUp(env: Env, b: Browser, prefs: Prefs)
    requires !IsAtRoot(env, b.currentPath) && IsAbsolute(b.currentPath)
    ensures var r := OnKeyDown(env, b, prefs, Back);
      && r.Handled?
      && (r.browser.currentPath == env.root
          || (StartsWith(Normalize(b.currentPath), r.browser.currentPath)
              && |r.browser.currentPath| < |Normalize(b.currentPath)|))
  {
    ParentOfAbsolute(env.userDir, b.currentPath);
  }
}
