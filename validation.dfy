/** The checks a visualisation file must pass before and while it is read. */
module Validation {
  import opened Wrappers
  import opened Text
  import opened Tables

  /** The index of the last `c` in `s`, or -1 when there is none. */
  function LastIndex(s: string, c: char): (r: int)
    ensures -1 <= r < |s|
    ensures r >= 0 ==> s[r] == c
    ensures forall i :: r < i < |s| ==> s[i] != c
  {
    if |s| == 0 then -1
    else if s[|s| - 1] == c then |s| - 1
    else LastIndex(s[..|s| - 1], c)
  }

  /**
   * `os.path.splitext(path)[1]` with '/' as the only separator: the text from the
   * last '.' of the last path component, provided some character other than '.'
   * comes before that dot in the component; otherwise empty.
   */
  function Extension(path: string): (ext: string)
    ensures ext == "" || (ext[0] == '.' && '/' !in ext && '.' !in ext[1..])
    ensures ext != "" ==> |ext| <= |path| && path[|path| - |ext|..] == ext
  {
    var sep := LastIndex(path, '/');
    var dot := LastIndex(path, '.');
    if dot > sep && exists k :: sep < k < dot && path[k] != '.' then
      ExtensionTail(path, sep, dot);
      path[dot..]
    else ""
  }

  /** The text from the last '.', which comes after the last '/', starts with that dot and holds no other and no '/'. */
  lemma ExtensionTail(path: string, sep: int, dot: int)
    requires -1 <= sep < dot < |path| && path[dot] == '.'
    requires forall i :: sep < i < |path| ==> path[i] != '/'
    requires forall i :: dot < i < |path| ==> path[i] != '.'
    ensures var ext := path[dot..]; ext[0] == '.' && '/' !in ext && '.' !in ext[1..]
  {
    var ext := path[dot..];
    forall i | 0 <= i < |ext| ensures ext[i] != '/' && (i > 0 ==> ext[i] != '.') {
      assert ext[i] == path[dot + i];
    }
    assert forall i :: 0 <= i < |ext| - 1 ==> ext[1..][i] == ext[i + 1];
  }

  /** The last path component, as `path.split('/')[-1]` computes it. */
  function BaseName(path: string): string { AfterLast(path, '/') }

  /**
   * The regular expression `_\d\d\d\d\d\d_\d\d\d\d\d\d.csv` matches at `i`:
   * an underscore, six digits, an underscore, six digits, any character but a
   * newline, then "csv".
   */
  predicate StampAt(s: string, i: int)
  {
    0 <= i && i + 18 <= |s|
    && s[i] == '_' && AllDigits(s[i + 1..i + 7])
    && s[i + 7] == '_' && AllDigits(s[i + 8..i + 14])
    && s[i + 14] != '\n' && s[i + 15..i + 18] == "csv"
  }

  /** `re.search('(.*?_\d{6}_\d{6}.csv)', s)` succeeds. */
  predicate HasStamp(s: string)
  {
    exists i :: 0 <= i <= |s| - 18 && StampAt(s, i)
  }

  /** validate_filepath: the extension must be ".csv" and the file name must carry the download stamp. */
  function ValidateFilepath(path: string): (r: Outcome<Fault>)
    ensures r.Pass? <==> Extension(path) == ".csv" && HasStamp(BaseName(path))
    ensures r.Fail? ==> r.error.InvalidVisualisation?
    ensures r.Fail? && r.error.InvalidVisualisation? && r.error.short == "File is not a csv"
            <==> Extension(path) != ".csv"
  {
    var ext := Extension(path);
    if ext != ".csv" then
      Fail(InvalidVisualisation(path + " has invalid extension: \"" + ext + "\"", "File is not a csv"))
    else
      var name := BaseName(path);
      if !HasStamp(name) then
        Fail(InvalidVisualisation(
          "Filename \"" + name + "\" is not in the format of a downloaded CORD visualisation",
          "Invalid filename"))
      else Pass
  }

  /** A name that is not empty and contains no '/' or '.', followed by a download stamp. */
  function DownloadName(name: string, stamp1: string, stamp2: string): string
  {
    name + "_" + stamp1 + "_" + stamp2 + ".csv"
  }

  predicate WellFormedDownload(name: string, stamp1: string, stamp2: string)
  {
    |name| > 0 && '/' !in name && '.' !in name
    && |stamp1| == 6 && AllDigits(stamp1) && |stamp2| == 6 && AllDigits(stamp2)
  }

  /** A file saved in a directory under its download name passes the path checks. */
  lemma DownloadPathValid(dir: string, name: string, stamp1: string, stamp2: string)
    requires WellFormedDownload(name, stamp1, stamp2)
    ensures StampAt(DownloadName(name, stamp1, stamp2), |name|)
    ensures BaseName(dir + "/" + DownloadName(name, stamp1, stamp2)) == DownloadName(name, stamp1, stamp2)
    ensures ValidateFilepath(dir + "/" + DownloadName(name, stamp1, stamp2)).Pass?
  {
    var file := DownloadName(name, stamp1, stamp2);
    DownloadFile(name, stamp1, stamp2);
    PathInDirectory(dir, file);
    assert HasStamp(file);
  }

  /** The download name carries its stamp after the name, holds no '/', starts with the name and ends in ".csv". */
  lemma DownloadFile(name: string, stamp1: string, stamp2: string)
    requires WellFormedDownload(name, stamp1, stamp2)
    ensures var file := DownloadName(name, stamp1, stamp2);
            && StampAt(file, |name|) && '/' !in file && |file| >= 5 && file[0] == name[0]
            && file[|file| - 4..] == ".csv"
  {
    var file := DownloadName(name, stamp1, stamp2);
    var n := |name|;
    assert file[n + 1..n + 7] == stamp1;
    assert file[n + 8..n + 14] == stamp2;
    assert file[n + 15..n + 18] == "csv";
    assert file[|file| - 4..] == ".csv";
    assert '/' !in file by {
      forall i | 0 <= i < |file| ensures file[i] != '/' {
        if i < n { assert file[i] == name[i]; }
      }
    }
  }

  /** A file without '/' that does not start with '.' and ends in ".csv", in a directory: its base name and its extension. */
  lemma PathInDirectory(dir: string, file: string)
    requires '/' !in file && |file| >= 5 && file[0] != '.' && file[|file| - 4..] == ".csv"
    ensures BaseName(dir + "/" + file) == file
    ensures Extension(dir + "/" + file) == ".csv"
  {
    PathBase(dir, file);
    PathExtension(dir, file);
  }

  lemma PathBase(dir: string, file: string)
    requires '/' !in file
    ensures BaseName(dir + "/" + file) == file
  {
    SplitNoSep(file, '/');
    SplitAround(dir, file, '/');
    assert dir + "/" + file == dir + ['/'] + file;
  }

  lemma PathExtension(dir: string, file: string)
    requires '/' !in file && |file| >= 5 && file[0] != '.' && file[|file| - 4..] == ".csv"
    ensures Extension(dir + "/" + file) == ".csv"
  {
    var path := dir + "/" + file;
    assert forall i :: 0 <= i < |file| ==> path[|dir| + 1 + i] == file[i];
    assert path[|dir|] == '/';
    var sep := LastIndex(path, '/');
    var dot := LastIndex(path, '.');
    assert path[|path| - 4] == '.' by {
      assert file[|file| - 4..][0] == file[|file| - 4];
    }
    assert dot == |path| - 4 by {
      forall i | |path| - 4 < i < |path| ensures path[i] != '.' {
        assert file[|file| - 4..][i - |path| + 4] == file[i - |dir| - 1];
      }
    }
    assert forall i :: |dir| < i < |path| ==> path[i] != '/' by {
      forall i | |dir| < i < |path| ensures path[i] != '/' {
        assert path[i] == file[i - |dir| - 1];
      }
    }
    assert sep == |dir|;
    assert path[|dir| + 1] != '.';
    assert path[dot..] == file[|file| - 4..];
  }

  /** `re.search('(\d\d\d\d)$', d)`: the text ends in four digits. */
  predicate AnnualSuffix(d: string)
  {
    |d| >= 4 && AllDigits(d[|d| - 4..])
  }

  /** `re.search('(\d\d\d\dQ\d)$', d)`: the text ends in four digits, 'Q' and a digit. */
  predicate QuarterSuffix(d: string)
  {
    |d| >= 6 && AllDigits(d[|d| - 6..|d| - 2]) && d[|d| - 2] == 'Q' && IsDigit(d[|d| - 1])
  }

  /** `re.search('(\d\d\d\d\w\w\w)$', d)`: the text ends in four digits and three word characters. */
  predicate MonthSuffix(d: string)
  {
    |d| >= 7 && AllDigits(d[|d| - 7..|d| - 3])
    && IsWordChar(d[|d| - 3]) && IsWordChar(d[|d| - 2]) && IsWordChar(d[|d| - 1])
  }

  /** The periodicities whose date pattern the text ends in, in the order they are tried. */
  function DateMatches(d: string): seq<Periodicity>
  {
    (if AnnualSuffix(d) then [Annual] else [])
    + (if QuarterSuffix(d) then [Quarterly] else [])
    + (if MonthSuffix(d) then [Monthly] else [])
  }

  function DateError(date: string): Fault
  {
    InvalidVisualisation("The format of the date: \"" + date + "\" is not recognised", "Invalid date header")
  }

  /** validate_date: the periodicity of a date header, accepted only when exactly one pattern matches. */
  method ValidateDate(date: string) returns (r: Result<Periodicity, Fault>)
    ensures r.Ok? <==> |DateMatches(date)| == 1
    ensures r.Ok? ==> r.value == DateMatches(date)[0]
    ensures r.Err? ==> r.error == DateError(date)
  {
    var found: seq<Periodicity> := [];
    if AnnualSuffix(date) {
      found := found + [Annual];
    }
    if QuarterSuffix(date) {
      found := found + [Quarterly];
    }
    if MonthSuffix(date) {
      found := found + [Monthly];
    }
    if |found| != 1 {
      return Err(DateError(date));
    }
    return Ok(found[0]);
  }

  /** The headers the visualisation tool writes are each recognised as their own periodicity. */
  lemma CanonicalDates(year: string, quarter: char, month: string)
    requires |year| == 4 && AllDigits(year) && IsDigit(quarter)
    requires |month| == 3 && IsAsciiLetter(month[0]) && IsAsciiLetter(month[1]) && IsAsciiLetter(month[2])
    ensures DateMatches(year) == [Annual]
    ensures DateMatches(year + ['Q', quarter]) == [Quarterly]
    ensures DateMatches(year + month) == [Monthly]
  {
    var q := year + ['Q', quarter];
    assert q[|q| - 6..|q| - 2] == year;
    assert !AnnualSuffix(q) by { assert q[|q| - 4..][2] == 'Q'; }
    var m := year + month;
    assert m[|m| - 7..|m| - 3] == year;
    assert !AnnualSuffix(m) by { assert m[|m| - 4..][1] == month[0]; }
    assert !QuarterSuffix(m) by { assert m[|m| - 6..|m| - 2][3] == month[0]; }
    assert year[|year| - 4..] == year;
  }

  /** The patterns are searched, not anchored: any text may precede a recognised date. */
  lemma DatePrefixIgnored(prefix: string, date: string)
    requires |date| >= 7
    ensures DateMatches(prefix + date) == DateMatches(date)
  {
    var s := prefix + date;
    var k := |prefix|;
    assert s[|s| - 4..] == date[|date| - 4..];
    assert s[|s| - 6..|s| - 2] == date[|date| - 6..|date| - 2];
    assert s[|s| - 7..|s| - 3] == date[|date| - 7..|date| - 3];
    assert s[|s| - 1] == date[|date| - 1] && s[|s| - 2] == date[|date| - 2] && s[|s| - 3] == date[|date| - 3];
  }

  /** Seven digits end in both the annual and the monthly pattern, so they are refused. */
  lemma SevenDigitsRejected()
    ensures DateMatches("2020123") == [Annual, Monthly]
  {
    assert "2020123"[3..] == "0123";
    assert "2020123"[0..4] == "2020";
  }

  /** The metadata patterns the parser looks for. */
  datatype MetaPattern =
    | StatisticalActivityPattern  // 'Statistical Activity = (.*?)$'
    | DatasetPattern              // '.*?Dataset:(.*?),'
    | StatusPattern               // '.*?Status:(.*?),|.*?Status:(.*?)$'

  /**
   * What `.*?tag(.*?),` captures: the text between the first occurrence of
   * `tag` and the next comma. When no comma follows the first occurrence none
   * follows a later one either, so the lazy prefix cannot find another match.
   */
  function CaptureToComma(line: string, tag: string): Option<string>
  {
    match Find(line, tag, 0)
    case None => None
    case Some(p) =>
      match Find(line, ",", p + |tag|)
      case None => None
      case Some(c) => Some(line[p + |tag|..c])
  }

  /** What `.*?tag(.*?)$` captures: the text after the first occurrence of `tag`. */
  function CaptureToEnd(line: string, tag: string): Option<string>
  {
    match Find(line, tag, 0)
    case None => None
    case Some(p) => Some(line[p + |tag|..])
  }

  /** The groups of `re.match(pattern, line)`, each `None` when it took no part; `None` when there is no match. */
  function MatchMeta(p: MetaPattern, line: string): (r: Option<seq<Option<string>>>)
    ensures r.Some? ==> |r.value| == (if p.StatusPattern? then 2 else 1)
    ensures r.Some? ==> r.value[0].Some? || r.value[|r.value| - 1].Some?
  {
    match p
    case StatisticalActivityPattern =>
      var tag := "Statistical Activity = ";
      if StartsWith(line, tag) then Some([Some(line[|tag|..])]) else None
    case DatasetPattern =>
      (match CaptureToComma(line, "Dataset:")
       case None => None
       case Some(g) => Some([Some(g)]))
    case StatusPattern =>
      (match CaptureToComma(line, "Status:")
       case Some(g) => Some([Some(g), None])
       case None =>
         (match CaptureToEnd(line, "Status:")
          case None => None
          case Some(g) => Some([None, Some(g)])))
  }

  /** The index of the first line the pattern matches. */
  function FirstMatch(p: MetaPattern, lines: seq<string>): (r: Option<nat>)
    ensures r.Some? ==> r.value < |lines| && MatchMeta(p, lines[r.value]).Some?
    ensures forall i :: 0 <= i < |lines| && (r.None? || i < r.value) ==> MatchMeta(p, lines[i]).None?
  {
    if |lines| == 0 then None
    else if MatchMeta(p, lines[0]).Some? then Some(0)
    else
      match FirstMatch(p, lines[1..])
      case None => None
      case Some(i) => Some(i + 1)
  }

  /** The last element that is present: for a match, the last group that took part in it. */
  function LastPresent<T>(groups: seq<Option<T>>): (r: Option<T>)
    ensures r.Some? <==> exists i :: 0 <= i < |groups| && groups[i].Some?
  {
    if |groups| == 0 then None
    else if groups[|groups| - 1].Some? then groups[|groups| - 1]
    else
      var front := groups[..|groups| - 1];
      assert forall i :: 0 <= i < |front| ==> front[i] == groups[i];
      LastPresent(front)
  }

  /** What LastPresent finds is present, and nothing after it is. */
  lemma {:induction false} LastPresentIsLast<T>(groups: seq<Option<T>>)
    requires LastPresent(groups).Some?
    ensures exists i :: 0 <= i < |groups| && groups[i] == LastPresent(groups)
                        && forall j :: i < j < |groups| ==> groups[j].None?
  {
    var n := |groups|;
    if groups[n - 1].Some? {
      assert groups[n - 1] == LastPresent(groups);
    } else {
      var front := groups[..n - 1];
      LastPresentIsLast(front);
      var i :| 0 <= i < |front| && front[i] == LastPresent(front) && forall j :: i < j < |front| ==> front[j].None?;
      assert groups[i] == LastPresent(groups);
      assert forall j :: i < j < n ==> groups[j].None? by {
        forall j | i < j < n ensures groups[j].None? {
          if j < n - 1 { assert groups[j] == front[j]; }
        }
      }
    }
  }

  /** The value validate_meta finds in `lines`, if it finds one. */
  function MetaLookup(p: MetaPattern, lines: seq<string>): Option<string>
  {
    match FirstMatch(p, lines)
    case None => None
    case Some(i) => LastPresent(MatchMeta(p, lines[i]).value)
  }

  /** Python's `repr` of a list of strings, ignoring the escaping of quotes. */
  function ListRepr(items: seq<string>): string
  {
    "[" + ListItems(items) + "]"
  }

  function ListItems(items: seq<string>): string
  {
    if |items| == 0 then ""
    else if |items| == 1 then "'" + items[0] + "'"
    else "'" + items[0] + "', " + ListItems(items[1..])
  }

  function MissingMeta(key: string, lines: seq<string>): Fault
  {
    InvalidVisualisation("Unable to match metadata for: \"" + key + "\" in \"" + ListRepr(lines) + "\"",
                         "Missing metadata")
  }

  lemma FirstMatchAt(p: MetaPattern, lines: seq<string>, i: nat)
    requires i < |lines| && MatchMeta(p, lines[i]).Some?
    requires forall j :: 0 <= j < i ==> MatchMeta(p, lines[j]).None?
    ensures FirstMatch(p, lines) == Some(i)
  {
  }

  /** The value the loop over a match's groups leaves behind: the last group that took part. */
  method PickGroup(groups: seq<Option<string>>) returns (found: Option<string>)
    ensures found == LastPresent(groups)
  {
    found := None;
    var g := 0;
    while g < |groups|
      invariant 0 <= g <= |groups|
      invariant found == LastPresent(groups[..g])
    {
      if groups[g].Some? {
        found := groups[g];
      }
      assert groups[..g + 1][..g] == groups[..g];
      g := g + 1;
    }
    assert groups[..g] == groups;
  }

  /**
   * validate_meta: the value of the first line the pattern matches. With no
   * lines at all the loop never binds its match, which Python reports as an
   * unbound local variable.
   */
  method ValidateMeta(key: string, p: MetaPattern, lines: seq<string>) returns (r: Result<string, Fault>)
    ensures |lines| == 0 ==> r.Err? && r.error.Unexpected?
    ensures |lines| > 0 && FirstMatch(p, lines).None? ==> r == Err(MissingMeta(key, lines))
    ensures r.Ok? <==> |lines| > 0 && FirstMatch(p, lines).Some?
    ensures r.Ok? ==> Some(r.value) == MetaLookup(p, lines)
  {
    if |lines| == 0 {
      return Err(Unexpected("local variable 'results' referenced before assignment"));
    }
    var results: Option<seq<Option<string>>> := None;
    var i := 0;
    while i < |lines|
      invariant 0 <= i <= |lines|
      invariant results.Some? ==> i < |lines| && results == MatchMeta(p, lines[i])
      invariant forall j :: 0 <= j < i ==> MatchMeta(p, lines[j]).None?
    {
      results := MatchMeta(p, lines[i]);
      if results.Some? {
        break;
      }
      i := i + 1;
    }
    if results.None? {
      return Err(MissingMeta(key, lines));
    }
    FirstMatchAt(p, lines, i);
    var groups := results.value;
    if |groups| == 1 {
      assert groups[..0] == [];
      return Ok(groups[0].value);
    }
    var found := PickGroup(groups);
    return Ok(found.value);
  }

  /** validate_unique: a visualisation may not be uploaded twice into one position. */
  function ValidateUnique(vis: string, existing: seq<string>): (r: Outcome<Fault>)
    ensures r.Fail? <==> vis in existing
    ensures r.Fail? ==> r.error.InvalidVisualisation? && r.error.short == "Visualisation already exists in position"
  {
    if vis in existing then
      Fail(InvalidVisualisation(
        "There is already a \"" + vis + "\" visualisation in this position. "
        + "Delete the existing version in order to overwrite it.",
        "Visualisation already exists in position"))
    else Pass
  }

  predicate AllMissing<T>(column: seq<Option<T>>)
  {
    forall i :: 0 <= i < |column| ==> column[i].None?
  }

  /** The number of columns that keep some value: `len(df.dropna(axis='columns', how='all').columns)`. */
  function ColumnsWithData<T>(columns: seq<seq<Option<T>>>): (n: nat)
    ensures n <= |columns|
    ensures n == |columns| <==> forall i :: 0 <= i < |columns| ==> !AllMissing(columns[i])
  {
    if |columns| == 0 then 0
    else ColumnsWithData(columns[..|columns| - 1]) + (if AllMissing(columns[|columns| - 1]) then 0 else 1)
  }

  /** validate_columns, on a frame given column by column: no column may be entirely missing. */
  function ValidateColumns<T>(columns: seq<seq<Option<T>>>): (r: Outcome<Fault>)
    ensures r.Fail? <==> exists i :: 0 <= i < |columns| && AllMissing(columns[i])
    ensures r.Fail? ==> r.error.InvalidVisualisation? && r.error.short == "File format error"
  {
    var base := |columns|;
    var dropped := ColumnsWithData(columns);
    if base != dropped then
      Fail(InvalidVisualisation(
        "Visualisation was read with " + NatToString(base) + " columns but only "
        + NatToString(dropped) + " have data",
        "File format error"))
    else Pass
  }
}
