/** The file helpers shared by the queries: reading the network list (`read_networks`, which the
    two `query_utilities` modules and `CountStableFC_large_networks` repeat), the choice of a
    reader by file extension in `extractdata`, the duplicate-name check of `readrow` and
    `readcol`, and the folder names of `create_results_folder`.  File contents, the literal
    parser, the clock and the home-directory expansion are parameters. */
module FileUtilities {
  import opened Wrappers
  import opened Dicts
  import opened Strings

  // ---- read_networks ----

  /** The argument of `read_networks`: a list of specifications, the name of a text file, or
      anything else. */
  datatype NetworkObject = SpecList(specs: seq<string>) | TextFile(path: string) | OtherObject

  predicate AllNewlines(s: string) {
    forall k :: 0 <= k < |s| ==> s[k] == '\n'
  }

  /** `s` with its trailing '\n' characters removed: the longest prefix not ending in '\n' after
      which only '\n' follows. */
  function StripNewlines(s: string): (t: string)
    ensures t <= s
    ensures t == [] || t[|t| - 1] != '\n'
    ensures AllNewlines(s[|t|..])
  {
    if s != [] && s[|s| - 1] == '\n' then
      var t := StripNewlines(s[..|s| - 1]);
      assert s[|t|..] == s[..|s| - 1][|t|..] + ['\n'];
      t
    else s
  }

  /** Newlines appended to a text that does not end in one are exactly what is stripped. */
  lemma {:induction false} StripAppended(w: string, nl: string)
    requires w == [] || w[|w| - 1] != '\n'
    requires AllNewlines(nl)
    ensures StripNewlines(w + nl) == w
    decreases |nl|
  {
    if nl != [] {
      var n := |nl| - 1;
      assert (w + nl)[..|w + nl| - 1] == w + nl[..n];
      StripAppended(w, nl[..n]);
    } else {
      assert w + nl == w;
    }
  }

  /** What `read_networks` returns, with `contents(path)` the text of the file `path` and
      `literal` the literal parser: a list unchanged; `[]` for an empty file; the parsed list
      for text starting with '['; otherwise the text without its trailing newlines as the only
      specification, and `IndexError` once the stripping empties the text.  Any other argument
      leaves `networks` unbound. */
  function ReadNetworksSpec(obj: NetworkObject, contents: string -> string, literal: string -> Result<seq<string>>)
    : Result<seq<string>>
  {
    match obj
    case SpecList(specs) => Ok(specs)
    case OtherObject => Err(NameError("networks"))
    case TextFile(path) =>
      var text := contents(path);
      if text == [] then Ok([])
      else if text[0] == '[' then literal(text)
      else if StripNewlines(text) == [] then Err(IndexError)
      else Ok([StripNewlines(text)])
  }

  /** `read_networks`, with its trimming loop. */
  method ReadNetworks(obj: NetworkObject, contents: string -> string, literal: string -> Result<seq<string>>)
    returns (r: Result<seq<string>>)
    ensures r == ReadNetworksSpec(obj, contents, literal)
  {
    match obj
    case SpecList(specs) => r := Ok(specs);
    case OtherObject => r := Err(NameError("networks"));
    case TextFile(path) =>
      var text := contents(path);
      if text == [] {
        return Ok([]);
      }
      if text[0] == '[' {
        return literal(text);
      }
      var s := text;
      while true
        invariant s <= text && StripNewlines(s) == StripNewlines(text)
        decreases |s|
      {
        if |s| == 0 {
          return Err(IndexError);
        }
        if s[|s| - 1] != '\n' {
          break;
        }
        s := s[..|s| - 1];
      }
      r := Ok([s]);
  }

  /** A single specification followed by any number of newlines reads back as itself. */
  lemma ReadsSingleSpec(path: string, w: string, nl: string, contents: string -> string, literal: string -> Result<seq<string>>)
    requires w != [] && w[0] != '[' && w[|w| - 1] != '\n'
    requires AllNewlines(nl) && contents(path) == w + nl
    ensures ReadNetworksSpec(TextFile(path), contents, literal) == Ok([w])
  {
    StripAppended(w, nl);
    assert (w + nl)[0] == w[0];
  }

  /** The single specification read from a file never ends with a newline, and a file of
      newlines alone raises `IndexError`. */
  lemma SingleSpecShape(path: string, contents: string -> string, literal: string -> Result<seq<string>>)
    requires contents(path) != [] && contents(path)[0] != '['
    ensures var r := ReadNetworksSpec(TextFile(path), contents, literal);
      && (r.Ok? ==> |r.value| == 1 && r.value[0] != [] && r.value[0][|r.value[0]| - 1] != '\n')
      && (r.Err? <==> AllNewlines(contents(path)))
  {
    var text := contents(path);
    if AllNewlines(text) {
      StripAppended([], text);
      assert [] + text == text;
    }
  }

  // ---- extractdata ----

  /** The two readers of `extractdata`: tab-separated and comma-separated values. */
  datatype Reader = TabSeparated | CommaSeparated

  /** `filename.split(".")[-1]` selects the reader; any other extension raises `ValueError`. */
  function ReaderFor(filename: string): Result<Reader> {
    var fileType := AfterLast(filename, '.');
    if fileType == "tsv" then Ok(TabSeparated)
    else if fileType == "csv" then Ok(CommaSeparated)
    else Err(ValueError("File type not recognized. Require .tsv or .csv."))
  }

  /** A name without a dot is its own extension. */
  lemma NoDotExtension(filename: string, ext: string)
    requires '.' !in ext
    ensures filename == ext ==> AfterLast(filename, '.') == ext
  {
    assert ext[0..] == ext;
  }

  /** A suffix `r` preceded by a dot, unless it is the whole of `s`. */
  lemma DotSuffixShape(s: string, r: string)
    requires |r| <= |s| && r == s[|s| - |r|..]
    requires |r| < |s| ==> s[|s| - |r| - 1] == '.'
    ensures s == r || (|s| > |r| && s[|s| - |r| - 1..] == ['.'] + r)
  {
    if |r| == |s| {
      assert s[0..] == s;
    } else {
      var j := |s| - |r| - 1;
      assert s[j..] == [s[j]] + s[j + 1..];
    }
  }

  /** The extension read off a name is the whole name or follows its last dot. */
  lemma ExtensionShape(filename: string, ext: string)
    ensures AfterLast(filename, '.') == ext ==>
      filename == ext || (|filename| > |ext| && filename[|filename| - |ext| - 1..] == ['.'] + ext)
  {
    DotSuffixIs(filename, AfterLast(filename, '.'), ext);
  }

  /** `DotSuffixShape` for a suffix that equals `ext`. */
  lemma DotSuffixIs(s: string, r: string, ext: string)
    requires |r| <= |s| && r == s[|s| - |r|..]
    requires |r| < |s| ==> s[|s| - |r| - 1] == '.'
    ensures r == ext ==> s == ext || (|s| > |ext| && s[|s| - |ext| - 1..] == ['.'] + ext)
  {
    if r == ext {
      DotSuffixShape(s, r);
    }
  }

  /** A name ending in a dot and `ext` has extension `ext`. */
  lemma ExtensionOfSuffix(filename: string, ext: string)
    requires '.' !in ext
    ensures (|filename| > |ext| && filename[|filename| - |ext| - 1..] == ['.'] + ext) ==> AfterLast(filename, '.') == ext
  {
    if |filename| > |ext| && filename[|filename| - |ext| - 1..] == ['.'] + ext {
      var stem := filename[..|filename| - |ext| - 1];
      assert filename == stem + ['.'] + ext by {
        assert filename == stem + filename[|filename| - |ext| - 1..];
      }
      AfterLastRest(stem, '.', ext);
    }
  }

  /** The text after the last '.' is `ext` exactly when the name is `ext` itself or ends in '.'
      followed by `ext`, for an `ext` without a dot. */
  lemma ExtensionIs(filename: string, ext: string)
    requires '.' !in ext
    ensures AfterLast(filename, '.') == ext <==>
      filename == ext || (|filename| > |ext| && filename[|filename| - |ext| - 1..] == ['.'] + ext)
  {
    ExtensionShape(filename, ext);
    NoDotExtension(filename, ext);
    ExtensionOfSuffix(filename, ext);
  }

  /** `ReaderFor` decides on the extension alone. */
  lemma ReaderForExtension(filename: string)
    ensures ReaderFor(filename) == Ok(TabSeparated) <==> AfterLast(filename, '.') == "tsv"
    ensures ReaderFor(filename) == Ok(CommaSeparated) <==> AfterLast(filename, '.') == "csv"
    ensures ReaderFor(filename).Err? ==> ReaderFor(filename).error == ValueError("File type not recognized. Require .tsv or .csv.")
  {
  }

  lemma DottedExtensions()
    ensures '.' !in "tsv" && '.' !in "csv"
    ensures ['.'] + "tsv" == ".tsv" && ['.'] + "csv" == ".csv"
  {
  }

  /** The accepted names are exactly those whose extension is "tsv" or "csv". */
  lemma ReaderForMeaning(filename: string)
    ensures ReaderFor(filename) == Ok(TabSeparated) <==>
      filename == "tsv" || (|filename| > 3 && filename[|filename| - 4..] == ".tsv")
    ensures ReaderFor(filename) == Ok(CommaSeparated) <==>
      filename == "csv" || (|filename| > 3 && filename[|filename| - 4..] == ".csv")
    ensures ReaderFor(filename).Err? ==> ReaderFor(filename).error == ValueError("File type not recognized. Require .tsv or .csv.")
  {
    ReaderForExtension(filename);
    DottedExtensions();
    ExtensionIs(filename, "tsv");
    ExtensionIs(filename, "csv");
  }

  // ---- readrow / readcol ----

  function Zip<T>(names: seq<string>, series: seq<T>): (pairs: seq<(string, T)>)
    requires |names| == |series|
    ensures |pairs| == |names| && KeysOf(pairs) == names
    ensures forall i :: 0 <= i < |pairs| ==> pairs[i] == (names[i], series[i])
  {
    seq(|names|, i requires 0 <= i < |names| => (names[i], series[i]))
  }

  /** `dict(zip(names, series))` after the check `len(set(names)) < len(names)`, which raises
      `ValueError` on a repeated name.  The names come from the same table as the series, one
      per series. */
  function SeriesByName<T>(names: seq<string>, series: seq<T>): Result<Dict<string, T>>
    requires |names| == |series|
  {
    if |set n | n in names| < |names| then Err(ValueError("Non-unique names in time series file."))
    else Ok(FromPairs(Zip(names, series)))
  }

  /** A repeated name raises; otherwise the dictionary lists the names in order, each holding its
      own series. */
  lemma SeriesByNameMeaning<T>(names: seq<string>, series: seq<T>)
    requires |names| == |series|
    ensures SeriesByName(names, series).Err? <==> !NoDuplicates(names)
    ensures SeriesByName(names, series).Ok? ==>
      && SeriesByName(names, series).value.keys == names
      && forall i :: 0 <= i < |names| ==>
           names[i] in SeriesByName(names, series).value.values && SeriesByName(names, series).value.values[names[i]] == series[i]
  {
    SetSizeNoDuplicates(names);
    if NoDuplicates(names) {
      var pairs := Zip(names, series);
      FromPairsOrder(pairs);
      forall i | 0 <= i < |names|
        ensures names[i] in FromPairs(pairs).values && FromPairs(pairs).values[names[i]] == series[i]
      {
        FromPairsLastWins(pairs, i);
      }
    }
  }

  // ---- create_results_folder ----

  /** The folders of one run and the input files copied into the inputs folder. */
  datatype Folders = Folders(queries: string, inputs: string, copied: seq<string>)

  /** `create_results_folder`, with `now` the stripped output of `date` and `expand` the
      home-directory expansion: the run's folder is `dsgrn_net_query_results<dt>` under the
      results directory, holding `queries<dt>` (returned) and `inputs<dt>`; the network file is
      copied always, the parameter file only when its name is not empty. */
  function ResultsFolder(networkFile: string, paramsFile: string, resultsdir: string, datetime: Option<string>,
                         now: string, expand: string -> string): Folders
  {
    var dt := Stamp(datetime, now);
    var dirname := PathJoin(expand(resultsdir), "dsgrn_net_query_results" + dt);
    Folders(PathJoin(dirname, "queries" + dt), PathJoin(dirname, "inputs" + dt),
            [networkFile] + (if paramsFile != "" then [paramsFile] else []))
  }

  /** Joining onto a directory that does not end in '/' puts one '/' between. */
  lemma JoinAddsSlash(d: string, f: string)
    requires d != [] && d[|d| - 1] != '/'
    ensures PathJoin(d, f) == d + "/" + f
  {
  }

  /** A name ending in a date-time free of '/' does not end in '/'. */
  lemma NoTrailingSlash(prefix: string, dt: string)
    requires prefix != [] && prefix[|prefix| - 1] != '/' && '/' !in dt
    ensures var s := prefix + dt; s != [] && s[|s| - 1] != '/'
  {
    var s := prefix + dt;
    if dt != [] {
      assert s[|s| - 1] == dt[|dt| - 1];
    } else {
      assert s == prefix;
    }
  }

  /** The date-time that names the folders: the given one, else the clock's. */
  function Stamp(datetime: Option<string>, now: string): string {
    if datetime.Some? then datetime.value else now
  }

  /** Under a results directory that does not end in '/', and with a date-time free of '/', the
      queries folder is `<dir>/dsgrn_net_query_results<dt>/queries<dt>` and the inputs folder
      its sibling `<dir>/dsgrn_net_query_results<dt>/inputs<dt>`. */
  lemma ResultsFolderPaths(networkFile: string, paramsFile: string, resultsdir: string, datetime: Option<string>,
                           now: string, expand: string -> string)
    requires expand(resultsdir) != [] && expand(resultsdir)[|expand(resultsdir)| - 1] != '/'
    requires '/' !in Stamp(datetime, now)
    ensures var dt := Stamp(datetime, now);
      var f := ResultsFolder(networkFile, paramsFile, resultsdir, datetime, now, expand);
      var dirname := expand(resultsdir) + "/" + ("dsgrn_net_query_results" + dt);
      && f.queries == dirname + "/" + ("queries" + dt)
      && f.inputs == dirname + "/" + ("inputs" + dt)
  {
    var dt := Stamp(datetime, now);
    var base := expand(resultsdir);
    JoinAddsSlash(base, "dsgrn_net_query_results" + dt);
    var dirname := base + "/" + ("dsgrn_net_query_results" + dt);
    assert dirname == (base + "/" + "dsgrn_net_query_results") + dt;
    NoTrailingSlash(base + "/" + "dsgrn_net_query_results", dt);
    JoinAddsSlash(dirname, "queries" + dt);
    JoinAddsSlash(dirname, "inputs" + dt);
  }

  /** A given date-time is used as it is, whatever the clock says; the network file is always
      copied, the parameter file exactly when its name is not empty. */
  lemma ResultsFolderInputs(networkFile: string, paramsFile: string, resultsdir: string, datetime: Option<string>,
                            now: string, now2: string, expand: string -> string)
    ensures datetime.Some? ==>
      ResultsFolder(networkFile, paramsFile, resultsdir, datetime, now, expand)
        == ResultsFolder(networkFile, paramsFile, resultsdir, datetime, now2, expand)
    ensures var f := ResultsFolder(networkFile, paramsFile, resultsdir, datetime, now, expand);
      f.copied[0] == networkFile && (paramsFile in f.copied[1..] <==> paramsFile != "") && |f.copied| <= 2
  {
  }
}
