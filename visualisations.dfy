/**
 * Reading a CORD visualisation file: locating its blocks, tokenising their header
 * lines, reading the metadata at the top of the file and the data of each
 * block; the worker that runs the reader for one file, and the list of files of
 * a position.
 */
module Visualisations {
  import opened Wrappers
  import opened Text
  import opened Tables
  import opened Validation

  /** A file as the reader sees it: one entry per line, `None` for a blank line. */
  type Lines = seq<Option<string>>

  /** The line at index `n`, `None` when it is blank or outside the file. */
  function LineAt(lines: Lines, n: int): Option<string>
  {
    if 0 <= n < |lines| then lines[n] else None
  }

  predicate LineContains(lines: Lines, n: int, sub: string)
  {
    LineAt(lines, n).Some? && Contains(LineAt(lines, n).value, sub)
  }

  predicate IncreasingIndices(s: seq<nat>)
  {
    forall i, j :: 0 <= i < j < |s| ==> s[i] < s[j]
  }

  /** The indices, in order, of the lines containing `sub`, from line `from` on. */
  function RowsFrom(lines: Lines, sub: string, from: nat): (r: seq<nat>)
    ensures IncreasingIndices(r)
    ensures forall i :: 0 <= i < |r| ==> from <= r[i] < |lines| && LineContains(lines, r[i], sub)
    ensures forall n :: from <= n < |lines| && LineContains(lines, n, sub) ==> n in r
    decreases |lines| - from
  {
    if from >= |lines| then []
    else
      var rest := RowsFrom(lines, sub, from + 1);
      if LineContains(lines, from, sub) then [from] + rest else rest
  }

  /** `df.loc[df[0].str.contains(sub, na=False)].index.tolist()`. */
  function RowsContaining(lines: Lines, sub: string): seq<nat>
  {
    RowsFrom(lines, sub, 0)
  }

  /** A block of the file: the index of its dimension-header line and of its last line. */
  datatype Marker = Marker(start: int, end: int)

  /** The markers that belong to data blocks (every one but the first, which covers the metadata). */
  function DataMarkers(markers: seq<Marker>): seq<Marker>
  {
    if |markers| == 0 then [] else markers[1..]
  }

  /** The scan back from the end of the file to its last non-blank line, which is at or after `d`. */
  method LastNonBlank(lines: Lines, d: nat) returns (last: nat)
    requires d < |lines| && lines[d].Some?
    ensures d <= last < |lines| && lines[last].Some?
    ensures forall j :: last < j < |lines| ==> lines[j].None?
  {
    last := |lines| - 1;
    while lines[last].None?
      invariant d <= last < |lines|
      invariant forall j :: last < j < |lines| ==> lines[j].None?
      decreases last
    {
      last := last - 1;
    }
  }

  /**
   * The blocks _retrieve_markers finds: the metadata block ends just above the
   * first date marker; every block but the last ends two lines above the
   * next criteria line; the last ends at the last non-blank line of the file.
   */
  predicate MarkersOf(lines: Lines, m: seq<Marker>)
  {
    BlocksOf(lines, RowsContaining(lines, ",Date"), RowsContaining(lines, "Criteria: "), m)
  }

  /** MarkersOf, given the date and criteria marker rows. */
  predicate BlocksOf(lines: Lines, date: seq<nat>, criteria: seq<nat>, m: seq<Marker>)
  {
    && |date| > 0 && (|date| == 1 || |date| <= |criteria|)
    && |m| == |date| + 1
    && m[0] == Marker(0, date[0] as int - 1)
    && (forall i :: 0 <= i < |date| - 1 ==> m[i + 1] == Marker(date[i], criteria[i + 1] as int - 2))
    && m[|date|].start == date[|date| - 1]
    && date[|date| - 1] <= m[|date|].end < |lines|
    && lines[m[|date|].end].Some?
    && (forall j :: m[|date|].end < j < |lines| ==> lines[j].None?)
  }

  /**
   * _retrieve_markers: the metadata block ends just above the first date
   * marker; every block but the last ends two lines above the next criteria
   * line; the last ends at the last non-blank line of the file.
   */
  method RetrieveMarkers(lines: Lines) returns (r: Result<seq<Marker>, Fault>)
    ensures var date := RowsContaining(lines, ",Date");
            var criteria := RowsContaining(lines, "Criteria: ");
            r.Ok? <==> |date| > 0 && (|date| == 1 || |date| <= |criteria|)
    ensures r.Err? ==> r.error.Unexpected?
    ensures r.Ok? ==> MarkersOf(lines, r.value)
  {
    var date := RowsContaining(lines, ",Date");
    var criteria := RowsContaining(lines, "Criteria: ");
    r := MarkersFrom(lines, date, criteria);
  }

  /** The loop of _retrieve_markers over the date marker rows `date`, which hold text. */
  method MarkersFrom(lines: Lines, date: seq<nat>, criteria: seq<nat>) returns (r: Result<seq<Marker>, Fault>)
    requires IncreasingIndices(date)
    requires forall i :: 0 <= i < |date| ==> date[i] < |lines| && lines[date[i]].Some?
    ensures r.Ok? <==> |date| > 0 && (|date| == 1 || |date| <= |criteria|)
    ensures r.Err? ==> r.error.Unexpected?
    ensures r.Ok? ==> BlocksOf(lines, date, criteria, r.value)
  {
    if |date| == 0 {
      return Err(Unexpected("list index out of range"));
    }
    var markers := [Marker(0, date[0] as int - 1)];
    var n := |date|;
    var i := 0;
    while i < n
      invariant 0 <= i <= n
      invariant |markers| == i + 1 && markers[0] == Marker(0, date[0] as int - 1)
      invariant i >= n - 1 && n >= 2 ==> n <= |criteria|
      invariant forall j :: 0 <= j < i && j < n - 1 ==> j + 1 < |criteria| && markers[j + 1] == Marker(date[j], criteria[j + 1] as int - 2)
      invariant i == n ==> markers[n].start == date[n - 1] && date[n - 1] <= markers[n].end < |lines|
                           && lines[markers[n].end].Some?
                           && forall j :: markers[n].end < j < |lines| ==> lines[j].None?
    {
      var d := date[i];
      if d == date[n - 1] {
        assert i == n - 1;
        var last := LastNonBlank(lines, d);
        markers := markers + [Marker(d, last)];
      } else {
        if i + 1 >= |criteria| {
          return Err(Unexpected("list index out of range"));
        }
        markers := markers + [Marker(d, criteria[i + 1] as int - 2)];
      }
      i := i + 1;
    }
    return Ok(markers);
  }

  /** A file has one set of blocks: the markers are determined by its lines. */
  lemma MarkersUnique(lines: Lines, a: seq<Marker>, b: seq<Marker>)
    requires MarkersOf(lines, a) && MarkersOf(lines, b)
    ensures a == b
  {
    var date, criteria := RowsContaining(lines, ",Date"), RowsContaining(lines, "Criteria: ");
    var n := |date|;
    assert !(a[n].end < b[n].end) && !(b[n].end < a[n].end);
    forall i | 0 <= i < |a|
      ensures a[i] == b[i]
    {
      if 0 < i < n {
        var j := i - 1;
        assert a[j + 1] == Marker(date[j], criteria[j + 1] as int - 2) == b[j + 1];
      }
    }
  }

  /** Each piece of a header line with its quotes removed. */
  function Unquote(parts: seq<string>): seq<string>
  {
    if |parts| == 0 then [] else [RemoveChar(parts[0], '"')] + Unquote(parts[1..])
  }

  lemma {:induction false} UnquoteEach(parts: seq<string>)
    ensures |Unquote(parts)| == |parts|
    ensures forall i :: 0 <= i < |parts| ==> Unquote(parts)[i] == RemoveChar(parts[i], '"')
  {
    if |parts| > 0 {
      UnquoteEach(parts[1..]);
    }
  }

  /** Pieces without quotes come through unchanged. */
  lemma {:induction false} UnquoteNoQuotes(parts: seq<string>)
    requires forall i :: 0 <= i < |parts| ==> '"' !in parts[i]
    ensures Unquote(parts) == parts
  {
    UnquoteEach(parts);
  }

  /** A header line's tokens: trailing commas stripped, split on ',', quotes removed, empty tokens dropped. */
  function Tokenise(line: string): seq<string>
  {
    DropEmpty(Unquote(Split(RStrip(line, ','), ',')))
  }

  function Commas(n: nat): string
  {
    if n == 0 then "" else Commas(n - 1) + ","
  }

  lemma {:induction false} RStripCommas(s: string, n: nat)
    requires s == "" || s[|s| - 1] != ','
    ensures RStrip(s + Commas(n), ',') == s
    decreases n
  {
    if n > 0 {
      var shorter := s + Commas(n - 1);
      var t := s + Commas(n);
      assert t == shorter + ",";
      assert t[|t| - 1] == ',' && t[..|t| - 1] == shorter;
      assert RStrip(t, ',') == RStrip(shorter, ',');
      RStripCommas(s, n - 1);
      assert RStrip(t, ',') == s;
    } else {
      assert s + Commas(0) == s;
      assert !(|s| > 0 && s[|s| - 1] == ',');
      assert RStrip(s, ',') == s;
    }
  }

  lemma {:induction false} JoinLast(tokens: seq<string>)
    requires |tokens| >= 1 && tokens[|tokens| - 1] != ""
    ensures var s := Join(tokens, ','); |s| >= 1 && s[|s| - 1] == tokens[|tokens| - 1][|tokens[|tokens| - 1]| - 1]
    decreases |tokens|
  {
    if |tokens| > 1 {
      JoinLast(tokens[1..]);
    }
  }

  /**
   * Tokenising a header written as its tokens joined by commas gives the tokens
   * back, however many trailing commas a spreadsheet program appended.
   */
  lemma HeaderRoundTrip(tokens: seq<string>, trailing: nat)
    requires |tokens| >= 1
    requires forall i :: 0 <= i < |tokens| ==> tokens[i] != "" && ',' !in tokens[i] && '"' !in tokens[i]
    ensures Tokenise(Join(tokens, ',') + Commas(trailing)) == tokens
  {
    var s := Join(tokens, ',');
    JoinLast(tokens);
    RStripCommas(s, trailing);
    SplitJoin(tokens, ',');
    UnquoteNoQuotes(tokens);
    DropEmptyNoEmpty(tokens);
  }

  /**
   * Every token of a header line is non-empty and holds no comma and no
   * quote, so the tokens are exactly the lists the round trip above accepts.
   */
  lemma TokensClean(line: string)
    ensures forall t :: t in Tokenise(line) ==> t != "" && ',' !in t && '"' !in t
  {
    var parts := Split(RStrip(line, ','), ',');
    UnquoteEach(parts);
    forall t | t in Unquote(parts)
      ensures ',' !in t && '"' !in t
    {
      var i :| 0 <= i < |parts| && Unquote(parts)[i] == t;
      RemoveCharKeeps(parts[i], '"', ',');
    }
  }

  /** `dates` holds the tokenised line after each block's marker line. */
  predicate DatesOf(lines: Lines, blocks: seq<Marker>, dates: seq<seq<string>>)
  {
    |dates| == |blocks|
    && forall i {:trigger dates[i]} :: 0 <= i < |blocks| ==>
         LineAt(lines, blocks[i].start + 1).Some? && dates[i] == Tokenise(LineAt(lines, blocks[i].start + 1).value)
  }

  /**
   * _retrieve_dates: the date tokens of every data block, taken from the line
   * after its marker. A blank or missing line is an error (pandas gives NaN,
   * which has no `rstrip`).
   */
  method RetrieveDates(lines: Lines, markers: seq<Marker>) returns (r: Result<seq<seq<string>>, Fault>)
    ensures var blocks := DataMarkers(markers);
            r.Ok? <==> forall i :: 0 <= i < |blocks| ==> LineAt(lines, blocks[i].start + 1).Some?
    ensures r.Err? ==> r.error.Unexpected?
    ensures r.Ok? ==> DatesOf(lines, DataMarkers(markers), r.value)
  {
    var blocks := DataMarkers(markers);
    var master: seq<seq<string>> := [];
    for i := 0 to |blocks|
      invariant |master| == i
      invariant forall j :: 0 <= j < i ==> LineAt(lines, blocks[j].start + 1).Some?
                                           && master[j] == Tokenise(LineAt(lines, blocks[j].start + 1).value)
    {
      var line := LineAt(lines, blocks[i].start + 1);
      if line.None? {
        return Err(Unexpected("'float' object has no attribute 'rstrip'"));
      }
      master := master + [Tokenise(line.value)];
    }
    return Ok(master);
  }

  /** The index of the first occurrence of `x` in `s`. */
  function IndexOf(s: seq<string>, x: string): (r: nat)
    requires x in s
    ensures r < |s| && s[r] == x && x !in s[..r]
  {
    if s[0] == x then 0
    else
      var r := 1 + IndexOf(s[1..], x);
      assert s[..r] == [s[0]] + s[1..][..r - 1];
      r
  }

  /** Python's `list.remove(x)`: the list without the first occurrence of `x`; `None` when `x` is absent. */
  function RemoveFirst(s: seq<string>, x: string): (r: Option<seq<string>>)
    ensures r.Some? <==> x in s
    ensures r.Some? ==> |r.value| == |s| - 1 && r.value == s[..IndexOf(s, x)] + s[IndexOf(s, x) + 1..]
  {
    if x in s then Some(s[..IndexOf(s, x)] + s[IndexOf(s, x) + 1..]) else None
  }

  /** The dimension names a header line gives: its tokens without the first "Date". */
  function DimensionsOf(line: string): Option<seq<string>>
  {
    RemoveFirst(Tokenise(line), "Date")
  }

  /** The dimension names of a block's header line; `None` when the line is blank or names no "Date" column. */
  function HeaderDims(lines: Lines, m: Marker): Option<seq<string>>
  {
    if LineAt(lines, m.start).None? then None else DimensionsOf(LineAt(lines, m.start).value)
  }

  /** Every block's header line names a "Date" column. */
  predicate AllHeaderDims(lines: Lines, blocks: seq<Marker>)
  {
    forall i {:trigger HeaderDims(lines, blocks[i])} :: 0 <= i < |blocks| ==> HeaderDims(lines, blocks[i]).Some?
  }

  /** One more block whose header names "Date" extends the prefix read so far. */
  lemma AllHeaderDimsStep(lines: Lines, blocks: seq<Marker>, i: nat)
    requires i < |blocks| && AllHeaderDims(lines, blocks[..i]) && HeaderDims(lines, blocks[i]).Some?
    ensures AllHeaderDims(lines, blocks[..i + 1])
  {
    var before, after := blocks[..i], blocks[..i + 1];
    forall j | 0 <= j < i + 1 ensures HeaderDims(lines, after[j]).Some? {
      if j < i { assert after[j] == before[j]; }
    }
  }

  /**
   * _retrieve_dimensions: the dimension names of every data block, of which only
   * the last block's list is kept. A header without "Date" is an error
   * (`list.remove` raises), and so is a file without data blocks (the
   * result variable is never bound).
   */
  method RetrieveDimensions(lines: Lines, markers: seq<Marker>) returns (r: Result<seq<string>, Fault>)
    ensures var blocks := DataMarkers(markers);
            r.Ok? <==> |blocks| > 0 && AllHeaderDims(lines, blocks)
    ensures r.Err? ==> r.error.Unexpected?
    ensures r.Ok? ==>
              var blocks := DataMarkers(markers);
              Some(r.value) == HeaderDims(lines, blocks[|blocks| - 1])
  {
    var blocks := DataMarkers(markers);
    if |blocks| == 0 {
      return Err(Unexpected("local variable 'dimensions' referenced before assignment"));
    }
    var dimensions: seq<string> := [];
    for i := 0 to |blocks|
      invariant AllHeaderDims(lines, blocks[..i])
      invariant i > 0 ==> Some(dimensions) == HeaderDims(lines, blocks[i - 1])
    {
      var dims := BlockDimensions(lines, blocks[i]);
      if dims.Err? {
        return dims;
      }
      AllHeaderDimsStep(lines, blocks, i);
      dimensions := dims.value;
    }
    assert blocks[..|blocks|] == blocks;
    return Ok(dimensions);
  }

  /** One iteration of _retrieve_dimensions: a blank header line has no text to strip, and one without "Date" has nothing to remove. */
  method BlockDimensions(lines: Lines, m: Marker) returns (r: Result<seq<string>, Fault>)
    ensures r.Ok? <==> HeaderDims(lines, m).Some?
    ensures r.Err? ==> r.error.Unexpected?
    ensures r.Ok? ==> Some(r.value) == HeaderDims(lines, m)
  {
    var line := LineAt(lines, m.start);
    if line.None? {
      return Err(Unexpected("'float' object has no attribute 'rstrip'"));
    }
    var dims := DimensionsOf(line.value);
    if dims.None? {
      return Err(Unexpected("list.remove(x): x not in list"));
    }
    return Ok(dims.value);
  }

  /** The index of the first non-blank line at or after `n`. */
  function NextNonBlank(lines: Lines, n: nat): (r: Option<nat>)
    ensures r.Some? ==> n <= r.value < |lines| && lines[r.value].Some?
    ensures forall j :: n <= j < |lines| && (r.None? || j < r.value) ==> lines[j].None?
    decreases |lines| - n
  {
    if n >= |lines| then None
    else if lines[n].Some? then Some(n)
    else NextNonBlank(lines, n + 1)
  }

  /**
   * The first date of the block whose marker starts at `start`: the first
   * non-empty field of the first non-blank line after the marker line (pandas
   * skips `start + 1` lines, then skips blank lines).
   */
  function FirstDate(lines: Lines, start: int): Option<string>
  {
    if start + 1 < 0 then None
    else match NextNonBlank(lines, start + 1)
      case None => None
      case Some(n) =>
        var tokens := Tokenise(lines[n].value);
        if |tokens| == 0 then None else Some(tokens[0])
  }

  /** Each block's first date matches exactly one pattern, that of the block's periodicity. */
  predicate PeriodsOf(lines: Lines, blocks: seq<Marker>, periods: seq<Periodicity>)
  {
    |periods| == |blocks|
    && forall i {:trigger periods[i]} :: 0 <= i < |blocks| ==>
         FirstDate(lines, blocks[i].start).Some? && DateMatches(FirstDate(lines, blocks[i].start).value) == [periods[i]]
  }

  /** _determine_periodicity: the periodicity of each data block, read from its first date. */
  method DeterminePeriodicity(lines: Lines, markers: seq<Marker>) returns (r: Result<seq<Periodicity>, Fault>)
    ensures var blocks := DataMarkers(markers);
            r.Ok? <==> forall i :: 0 <= i < |blocks| ==>
                         FirstDate(lines, blocks[i].start).Some? && |DateMatches(FirstDate(lines, blocks[i].start).value)| == 1
    ensures r.Ok? ==> PeriodsOf(lines, DataMarkers(markers), r.value)
    ensures r.Err? && r.error.InvalidVisualisation? ==> r.error.short == "Invalid date header"
  {
    var blocks := DataMarkers(markers);
    var periods: seq<Periodicity> := [];
    for i := 0 to |blocks|
      invariant |periods| == i
      invariant forall j :: 0 <= j < i ==> FirstDate(lines, blocks[j].start).Some?
                                           && |DateMatches(FirstDate(lines, blocks[j].start).value)| == 1
                                           && periods[j] == DateMatches(FirstDate(lines, blocks[j].start).value)[0]
    {
      var date := FirstDate(lines, blocks[i].start);
      if date.None? {
        return Err(Unexpected("single positional indexer is out-of-bounds"));
      }
      var per := ValidateDate(date.value);
      if per.Err? {
        return Err(per.error);
      }
      periods := periods + [per.value];
    }
    return Ok(periods);
  }

  /** _determine_modified: a file saved by a spreadsheet program has no blank line among its first three. */
  function DetermineModified(lines: Lines): bool
  {
    forall i :: 0 <= i < |lines| && i < 3 ==> lines[i].Some?
  }

  /** The file as a spreadsheet program saves it: every blank line becomes a row of commas. */
  function SavedBySpreadsheet(lines: Lines, width: nat): Lines
  {
    seq(|lines|, i requires 0 <= i < |lines| => if lines[i].None? then Some(Commas(width + 1)) else lines[i])
  }

  /**
   * The modified check reads the first three lines only: a file in the
   * download format, with a blank line among them, is not modified whatever
   * follows, and the same file once saved by a spreadsheet program is.
   */
  lemma DetermineModifiedSpec(lines: Lines, rest: Lines, width: nat)
    requires exists i :: 0 <= i < |lines| && i < 3 && lines[i].None?
    ensures !DetermineModified(lines) && !DetermineModified(lines + rest)
    ensures DetermineModified(SavedBySpreadsheet(lines, width)) && DetermineModified(SavedBySpreadsheet(lines + rest, width))
  {
    var i :| 0 <= i < |lines| && i < 3 && lines[i].None?;
    assert (lines + rest)[i].None?;
  }

  /** The name pattern's second alternative `_\d*\(VisualisationCSV\)` matches at `i`. */
  predicate ExportedAt(s: string, i: int)
  {
    0 <= i < |s| && s[i] == '_'
    && exists j :: i + 1 <= j <= |s| && AllDigits(s[i + 1..j]) && StartsWith(s[j..], "(VisualisationCSV)")
  }

  /** The first index at or after `from` where the download stamp starts. */
  function FirstStamp(s: string, from: nat): (r: Option<nat>)
    ensures r.Some? ==> from <= r.value && StampAt(s, r.value)
    ensures forall j :: from <= j && (r.None? || j < r.value) ==> !StampAt(s, j)
    decreases |s| - from
  {
    if from + 18 > |s| then None
    else if StampAt(s, from) then Some(from)
    else FirstStamp(s, from + 1)
  }

  /** The first index at or after `from` where the second alternative matches. */
  function FirstExported(s: string, from: nat): (r: Option<nat>)
    ensures r.Some? ==> from <= r.value && ExportedAt(s, r.value)
    ensures forall j :: from <= j && (r.None? || j < r.value) ==> !ExportedAt(s, j)
    decreases |s| - from
  {
    if from >= |s| then None
    else if ExportedAt(s, from) then Some(from)
    else FirstExported(s, from + 1)
  }

  /**
   * _determine_name on the file name: the shortest prefix before a download
   * stamp, or when there is no stamp the shortest prefix before
   * `_<digits>(VisualisationCSV)`. When the stamp starts the file name the
   * first group is empty and the second took no part, so the name is `None`.
   * No match at all is an error (the match object is `None`).
   */
  function DetermineName(file: string): (r: Result<Option<string>, Fault>)
    ensures r.Err? <==> FirstStamp(file, 0).None? && FirstExported(file, 0).None?
    ensures r.Ok? && r.value.Some? ==> StartsWith(file, r.value.value)
    ensures FirstStamp(file, 0).Some? ==>
              r.Ok? && (r.value.Some? <==> FirstStamp(file, 0).value > 0)
              && (r.value.Some? ==> StampAt(file, |r.value.value|))
    ensures r.Ok? && r.value.Some? ==>
              forall j :: 0 <= j < |r.value.value| ==> !StampAt(file, j)
  {
    match FirstStamp(file, 0)
    case Some(i) =>
      if i > 0 then Ok(Some(file[..i])) else Ok(None)
    case None =>
      match FirstExported(file, 0)
      case Some(i) => Ok(Some(file[..i]))
      case None => Err(Unexpected("'NoneType' object has no attribute 'group'"))
  }

  /** A file name with a download stamp always yields a name (possibly the empty one). */
  lemma StampedNamed(file: string)
    requires HasStamp(file)
    ensures FirstStamp(file, 0).Some? && DetermineName(file).Ok?
  {
    var i :| 0 <= i <= |file| - 18 && StampAt(file, i);
  }

  /** A well-formed download path passes the path checks and is named by the text before its stamp. */
  lemma DownloadNamed(dir: string, name: string, stamp1: string, stamp2: string)
    requires WellFormedDownload(name, stamp1, stamp2)
    requires forall j :: 0 <= j < |name| ==> !StampAt(DownloadName(name, stamp1, stamp2), j)
    ensures ValidateFilepath(dir + "/" + DownloadName(name, stamp1, stamp2)).Pass?
    ensures DetermineName(BaseName(dir + "/" + DownloadName(name, stamp1, stamp2))) == Ok(Some(name))
  {
    var file := DownloadName(name, stamp1, stamp2);
    DownloadPathValid(dir, name, stamp1, stamp2);
    assert FirstStamp(file, 0) == Some(|name|);
    assert file[..|name|] == name;
  }

  // ---------------------------------------------------------------- metadata

  /**
   * The metadata lines: the first `end` lines of the file, trailing commas
   * stripped, blank and empty lines dropped. A negative row count is refused
   * by the reader.
   */
  function MetaLines(lines: Lines, end: int): (r: Result<seq<string>, Fault>)
    ensures r.Err? <==> end < 0
    ensures r.Ok? ==> forall i :: 0 <= i < |r.value| ==> r.value[i] != "" && r.value[i][|r.value[i]| - 1] != ','
  {
    if end < 0 then Err(Unexpected("'nrows' must be an integer >=0"))
    else Ok(StrippedLines(lines[..if end < |lines| then end else |lines|]))
  }

  function StrippedLines(lines: Lines): (r: seq<string>)
    ensures forall i :: 0 <= i < |r| ==> r[i] != "" && r[i][|r[i]| - 1] != ','
    ensures |r| <= |lines|
  {
    if |lines| == 0 then []
    else
      var rest := StrippedLines(lines[1..]);
      if lines[0].None? || RStrip(lines[0].value, ',') == "" then rest
      else [RStrip(lines[0].value, ',')] + rest
  }

  /** A stripped line kept in the metadata: the non-blank lines whose content is not only commas. */
  lemma {:induction false} StrippedLinesKeep(lines: Lines)
    requires forall i :: 0 <= i < |lines| ==> lines[i].Some? && lines[i].value != "" && lines[i].value[|lines[i].value| - 1] != ','
    ensures StrippedLines(lines) == seq(|lines|, i requires 0 <= i < |lines| => lines[i].value)
  {
    if |lines| > 0 {
      StrippedLinesKeep(lines[1..]);
    }
  }

  /** The index of the first line equal to `line`, when there is one. */
  function IndexOfLine(lines: seq<string>, line: string): (r: Option<nat>)
    ensures r.Some? ==> r.value < |lines| && lines[r.value] == line && line !in lines[..r.value]
    ensures r.None? ==> line !in lines
  {
    if line in lines then Some(IndexOf(lines, line)) else None
  }

  /** The line that opens the coverage section. */
  const CoverageHeader: string := "Coverage Descriptors"

  /** The lines of the coverage section: every line after the first "Coverage Descriptors". */
  function CoverageSection(lines: seq<string>): seq<string>
  {
    match IndexOfLine(lines, CoverageHeader)
    case None => []
    case Some(i) => lines[i + 1..]
  }

  /** A coverage line unpacks into exactly a criterion and a value. */
  predicate CoverageLine(line: string)
  {
    |Split(line, ',')| == 2
  }

  function Criterion(line: string): string
    requires CoverageLine(line)
  {
    Split(line, ',')[0]
  }

  function CoverageValue(line: string): string
    requires CoverageLine(line)
  {
    RemoveChar(Split(line, ',')[1], '"')
  }

  /** The coverage dictionary the section's lines build, a later line overwriting an earlier one with the same criterion. */
  function CoverageOf(section: seq<string>): map<string, string>
    requires forall i :: 0 <= i < |section| ==> CoverageLine(section[i])
  {
    if |section| == 0 then map[]
    else
      var last := section[|section| - 1];
      CoverageOf(section[..|section| - 1])[Criterion(last) := CoverageValue(last)]
  }

  /** The keys of the coverage dictionary are exactly the criteria of the section's lines. */
  lemma {:induction false} CoverageKeys(section: seq<string>)
    requires forall i :: 0 <= i < |section| ==> CoverageLine(section[i])
    ensures forall i :: 0 <= i < |section| ==> Criterion(section[i]) in CoverageOf(section)
    ensures forall k :: k in CoverageOf(section) ==> exists i :: 0 <= i < |section| && Criterion(section[i]) == k
    decreases |section|
  {
    if |section| > 0 {
      var front := section[..|section| - 1];
      var last := section[|section| - 1];
      assert forall i :: 0 <= i < |front| ==> front[i] == section[i];
      CoverageKeys(front);
      assert CoverageOf(section) == CoverageOf(front)[Criterion(last) := CoverageValue(last)];
      forall k | k in CoverageOf(section)
        ensures exists i :: 0 <= i < |section| && Criterion(section[i]) == k
      {
        if k != Criterion(last) {
          assert k in CoverageOf(front);
          var i :| 0 <= i < |front| && Criterion(front[i]) == k;
          assert section[i] == front[i];
        }
      }
      forall i | 0 <= i < |section| ensures Criterion(section[i]) in CoverageOf(section) {
        if i < |front| { assert section[i] == front[i]; }
      }
    }
  }

  /** A criterion holds the value of the last line that names it. */
  lemma {:induction false} CoverageLastWins(section: seq<string>, i: nat)
    requires forall j :: 0 <= j < |section| ==> CoverageLine(section[j])
    requires i < |section|
    requires forall j :: i < j < |section| ==> Criterion(section[j]) != Criterion(section[i])
    ensures Criterion(section[i]) in CoverageOf(section)
    ensures CoverageOf(section)[Criterion(section[i])] == CoverageValue(section[i])
    decreases |section|
  {
    if i < |section| - 1 {
      var front := section[..|section| - 1];
      assert front[i] == section[i];
      CoverageLastWins(front, i);
    }
  }

  lemma CoverageStep(lines: seq<string>, from: nat, k: nat)
    requires from <= k < |lines|
    requires forall i :: from <= i <= k ==> CoverageLine(lines[i])
    ensures CoverageOf(lines[from..k + 1]) == CoverageOf(lines[from..k])[Criterion(lines[k]) := CoverageValue(lines[k])]
  {
    assert lines[from..k + 1][..k - from] == lines[from..k];
  }

  /**
   * The coverage loop of _read_meta: once the exact line "Coverage
   * Descriptors" has been passed, every line must unpack into a criterion and
   * a value (otherwise the unpacking raises), which is stored with its quotes
   * removed. The loop's `store` flag splits it into two phases, taken here one
   * after the other: the search for the header line, then the section after it.
   */
  method ReadCoverage(lines: seq<string>) returns (r: Result<map<string, string>, Fault>)
    ensures r.Ok? <==> forall i :: 0 <= i < |CoverageSection(lines)| ==> CoverageLine(CoverageSection(lines)[i])
    ensures r.Err? ==> r.error.Unexpected?
    ensures r.Ok? ==> r.value == CoverageOf(CoverageSection(lines))
  {
    var start := FindHeader(lines);
    if start.None? {
      assert CoverageSection(lines) == [];
      return Ok(map[]);
    }
    assert CoverageSection(lines) == lines[start.value + 1..];
    r := ReadSection(lines[start.value + 1..]);
  }

  /** The phase of the coverage loop before `store` is set: the first header line, if any. */
  method FindHeader(lines: seq<string>) returns (start: Option<nat>)
    ensures start == IndexOfLine(lines, CoverageHeader)
  {
    for k := 0 to |lines|
      invariant CoverageHeader !in lines[..k]
    {
      if lines[k] == CoverageHeader {
        FirstIndexOfLine(lines, lines[k], k);
        return Some(k);
      }
      assert lines[..k + 1] == lines[..k] + [lines[k]];
    }
    assert lines[..|lines|] == lines;
    return None;
  }

  /** The phase of the coverage loop after `store` is set: every line of the section stored, or the first that does not unpack. */
  method ReadSection(section: seq<string>) returns (r: Result<map<string, string>, Fault>)
    ensures r.Ok? <==> forall i :: 0 <= i < |section| ==> CoverageLine(section[i])
    ensures r.Err? ==> r.error.Unexpected?
    ensures r.Ok? ==> r.value == CoverageOf(section)
  {
    var coverage: map<string, string> := map[];
    for k := 0 to |section|
      invariant forall i :: 0 <= i < k ==> CoverageLine(section[i])
      invariant coverage == CoverageOf(section[..k])
    {
      var fields := Split(section[k], ',');
      if |fields| != 2 {
        return Err(Unexpected(if |fields| < 2 then "not enough values to unpack" else "too many values to unpack"));
      }
      CoverageStep(section, 0, k);
      assert section[0..k] == section[..k] && section[0..k + 1] == section[..k + 1];
      coverage := coverage[fields[0] := RemoveChar(fields[1], '"')];
    }
    assert section[..|section|] == section;
    return Ok(coverage);
  }

  /** The first occurrence of a line is the one IndexOfLine finds. */
  lemma FirstIndexOfLine(lines: seq<string>, line: string, k: nat)
    requires k < |lines| && lines[k] == line && line !in lines[..k]
    ensures IndexOfLine(lines, line) == Some(k)
  {
    assert lines[k] in lines;
    var j := IndexOfLine(lines, line).value;
    assert forall m :: 0 <= m < k ==> lines[m] != line by {
      forall m | 0 <= m < k ensures lines[m] != line { assert lines[..k][m] == lines[m]; }
    }
    assert forall m :: 0 <= m < j ==> lines[m] != line by {
      forall m | 0 <= m < j ensures lines[m] != line { assert lines[..j][m] == lines[m]; }
    }
  }

  /** The metadata a visualisation's header block carries. */
  datatype Metadata = Metadata(
    statisticalActivity: string,
    dataset: string,
    mode: string,
    status: string,
    coverage: map<string, string>)

  /**
   * What a header block's metadata are: the captures of the statistical
   * activity, the dataset and mode (cut at the capture's last colon) and the
   * status patterns, and the coverage descriptors, where every line of the
   * coverage section is a key and a value.
   */
  predicate MetaOf(lines: Lines, end: int, m: Metadata)
  {
    && MetaLines(lines, end).Ok?
    && var meta := MetaLines(lines, end).value;
    && MetaLookup(StatisticalActivityPattern, meta) == Some(m.statisticalActivity)
    && MetaLookup(DatasetPattern, meta).Some?
    && m.dataset == BeforeLast(MetaLookup(DatasetPattern, meta).value, ':')
    && m.mode == AfterLast(MetaLookup(DatasetPattern, meta).value, ':')
    && MetaLookup(StatusPattern, meta) == Some(m.status)
    && (forall i :: 0 <= i < |CoverageSection(meta)| ==> CoverageLine(CoverageSection(meta)[i]))
    && m.coverage == CoverageOf(CoverageSection(meta))
  }

  /** Metadata can be read only from lines where every pattern matches and every coverage line unpacks. */
  lemma MetaNeeds(lines: Lines, end: int)
    ensures (exists m :: MetaOf(lines, end, m)) ==>
              && MetaLines(lines, end).Ok?
              && var meta := MetaLines(lines, end).value;
              && |meta| > 0
              && FirstMatch(StatisticalActivityPattern, meta).Some?
              && FirstMatch(DatasetPattern, meta).Some?
              && FirstMatch(StatusPattern, meta).Some?
              && forall i :: 0 <= i < |CoverageSection(meta)| ==> CoverageLine(CoverageSection(meta)[i])
  {
    if m :| MetaOf(lines, end, m) {
      var meta := MetaLines(lines, end).value;
      assert MetaLookup(StatisticalActivityPattern, meta).Some?;
      assert MetaLookup(DatasetPattern, meta).Some?;
      assert MetaLookup(StatusPattern, meta).Some?;
    }
  }

  /**
   * _read_meta: the statistical activity, the dataset and mode (one capture,
   * cut at its last colon), the status and the coverage descriptors of the
   * lines above the first block.
   */
  method ReadMeta(lines: Lines, end: int) returns (r: Result<Metadata, Fault>)
    ensures end < 0 ==> r.Err? && r.error.Unexpected?
    ensures r.Ok? <==> exists m :: MetaOf(lines, end, m)
    ensures r.Ok? ==> MetaOf(lines, end, r.value)
    ensures MetaLines(lines, end).Ok? && |MetaLines(lines, end).value| > 0
            && MetaLookup(StatisticalActivityPattern, MetaLines(lines, end).value).None?
            ==> r == Err(MissingMeta("Statistical Activity", MetaLines(lines, end).value))
  {
    MetaNeeds(lines, end);
    var metaLines := MetaLines(lines, end);
    if metaLines.Err? {
      return Err(metaLines.error);
    }
    var meta := metaLines.value;
    var activity := ValidateMeta("Statistical Activity", StatisticalActivityPattern, meta);
    if activity.Err? {
      return Err(activity.error);
    }
    var datasetMode := ValidateMeta("Dataset:Mode", DatasetPattern, meta);
    if datasetMode.Err? {
      return Err(datasetMode.error);
    }
    var status := ValidateMeta("Status", StatusPattern, meta);
    if status.Err? {
      return Err(status.error);
    }
    var coverage := ReadCoverage(meta);
    if coverage.Err? {
      return Err(coverage.error);
    }
    var read := Metadata(activity.value, BeforeLast(datasetMode.value, ':'), AfterLast(datasetMode.value, ':'),
                         status.value, coverage.value);
    assert MetaOf(lines, end, read);
    return Ok(read);
  }

  /** The dataset and mode rejoin at a colon to the captured text whenever it holds one; the mode never holds one. */
  lemma DatasetModeRejoin(meta: Metadata, capture: string)
    requires meta.dataset == BeforeLast(capture, ':') && meta.mode == AfterLast(capture, ':')
    ensures ':' !in meta.mode
    ensures ':' in capture ==> meta.dataset + ":" + meta.mode == capture
    ensures ':' !in capture ==> meta.dataset == "" && meta.mode == capture
  {
    CutAtLast(capture, ':');
  }

  // ------------------------------------------------------------ column dates

  /** The month abbreviations `%b` reads and writes. */
  const MonthNames: seq<string> := ["Jan", "Feb", "Mar", "Apr", "May", "Jun", "Jul", "Aug", "Sep", "Oct", "Nov", "Dec"]

  function Lower(c: char): char
  {
    if 'A' <= c <= 'Z' then (c as int + 32) as char else c
  }

  /** Two texts equal once ASCII letters are lower-cased, as `%b` compares month names. */
  predicate SameIgnoringCase(a: string, b: string)
  {
    |a| == |b| && forall i :: 0 <= i < |a| ==> Lower(a[i]) == Lower(b[i])
  }

  /** The number, 1 to 12, of the month a three-letter abbreviation names in any letter case. */
  function MonthOf(s: string): (r: Option<nat>)
    ensures r.Some? ==> 1 <= r.value <= 12 && SameIgnoringCase(s, MonthNames[r.value - 1])
    ensures r.None? ==> forall m :: 0 <= m < 12 ==> !SameIgnoringCase(s, MonthNames[m])
  {
    MonthFrom(s, 0)
  }

  function MonthFrom(s: string, m: nat): (r: Option<nat>)
    requires m <= 12
    ensures r.Some? ==> m < r.value <= 12 && SameIgnoringCase(s, MonthNames[r.value - 1])
    ensures r.None? ==> forall k :: m <= k < 12 ==> !SameIgnoringCase(s, MonthNames[k])
    decreases 12 - m
  {
    if m == 12 then None
    else if SameIgnoringCase(s, MonthNames[m]) then Some(m + 1)
    else MonthFrom(s, m + 1)
  }

  /** The first-of-month timestamps pandas can hold: from October 1677 to April 2262. */
  predicate InTimestampRange(d: Date)
  {
    NotAfter(Date(1677, 10, 1), d) && NotAfter(d, Date(2262, 4, 1))
  }

  /**
   * One date header converted for the block's periodicity: `%Y` for an annual
   * block (the first of January), a `YYYYQn` quarter for a quarterly one (the
   * first day of its first month) and `%Y%b` for a monthly one. A token
   * outside these forms, or a date pandas cannot hold, is `None`.
   */
  function ParseDate(per: Periodicity, tok: string): (r: Option<Date>)
    ensures r.Some? ==> r.value.day == 1 && 1 <= r.value.month <= 12 && InTimestampRange(r.value)
    ensures r.Some? ==> |tok| >= 4 && AllDigits(tok[..4]) && r.value.year == ParseNat(tok[..4])
    ensures r.Some? && per.Annual? ==> |tok| == 4 && r.value.month == 1
    ensures r.Some? && per.Quarterly? ==>
              |tok| == 6 && tok[4] == 'Q' && '1' <= tok[5] <= '4' && r.value.month == 3 * (DigitValue(tok[5]) - 1) + 1
    ensures r.Some? && per.Monthly? ==> |tok| == 7 && MonthOf(tok[4..]) == Some(r.value.month)
  {
    if |tok| < 4 || !AllDigits(tok[..4]) then None
    else
      var year := ParseNat(tok[..4]);
      var d :=
        match per
        case Annual => if |tok| == 4 then Some(Date(year, 1, 1)) else None
        case Quarterly =>
          if |tok| == 6 && tok[4] == 'Q' && '1' <= tok[5] <= '4' then Some(Date(year, 3 * (DigitValue(tok[5]) - 1) + 1, 1))
          else None
        case Monthly =>
          (match MonthOf(tok[4..])
           case Some(m) => if |tok| == 7 then Some(Date(year, m, 1)) else None
           case None => None);
      if d.Some? && InTimestampRange(d.value) then d else None
  }

  /** _convert_column_dates: every date header of a block as a date; one token that does not convert fails the whole block. */
  function ConvertColumnDates(per: Periodicity, columns: seq<string>): (r: Result<seq<Date>, Fault>)
    ensures r.Ok? <==> forall i :: 0 <= i < |columns| ==> ParseDate(per, columns[i]).Some?
    ensures r.Err? ==> r.error.Unexpected?
    ensures r.Ok? ==> |r.value| == |columns| && forall i :: 0 <= i < |columns| ==> Some(r.value[i]) == ParseDate(per, columns[i])
  {
    if |columns| == 0 then Ok([])
    else
      match ParseDate(per, columns[0])
      case None => Err(Unexpected("time data does not match format"))
      case Some(d) =>
        match ConvertColumnDates(per, columns[1..])
        case Err(e) => Err(e)
        case Ok(rest) => Ok([d] + rest)
  }

  // ------------------------------------------------------------------ blocks

  /** The tokens the reader takes for missing values. */
  predicate IsNA(tok: string)
  {
    tok == "." || tok == "NULL" || tok == ""
  }

  /** A dimension cell: missing for an NA token. */
  function LevelOf(tok: string): (r: Level)
    ensures r.None? <==> IsNA(tok)
    ensures r.Some? ==> r.value == tok
  {
    if IsNA(tok) then None else Some(tok)
  }

  /** An optional minus sign followed by at least one digit. */
  function ParseInt(tok: string): (r: Option<int>)
    ensures r.Some? <==> (|tok| >= 1 && AllDigits(tok)) || (|tok| >= 2 && tok[0] == '-' && AllDigits(tok[1..]))
    ensures r.Some? && tok[0] != '-' ==> r.value == ParseNat(tok)
    ensures r.Some? && tok[0] == '-' ==> r.value == -(ParseNat(tok[1..]) as int)
  {
    if |tok| >= 1 && AllDigits(tok) then Some(ParseNat(tok))
    else if |tok| >= 2 && tok[0] == '-' && AllDigits(tok[1..]) then Some(-(ParseNat(tok[1..]) as int))
    else None
  }

  /** A value cell: missing for an NA token, an error for a token that is not a number. */
  function ValueOf(tok: string): (r: Result<Option<int>, Fault>)
    ensures r.Ok? && r.value.None? <==> IsNA(tok)
    ensures r.Ok? && r.value.Some? <==> !IsNA(tok) && ParseInt(tok).Some?
    ensures r.Ok? && r.value.Some? ==> r.value == ParseInt(tok)
    ensures r.Err? ==> r.error.Unexpected?
  {
    if IsNA(tok) then Ok(None)
    else match ParseInt(tok)
      case Some(n) => Ok(Some(n))
      case None => Err(Unexpected("could not convert string to float"))
  }

  /** The first `width` pieces, padded with empty ones when there are fewer. */
  function Fit(parts: seq<string>, width: nat): (r: seq<string>)
    ensures |r| == width
    ensures forall j :: 0 <= j < width ==> r[j] == (if j < |parts| then parts[j] else "")
  {
    if width == 0 then []
    else if |parts| == 0 then [""] + Fit([], width - 1)
    else [parts[0]] + Fit(parts[1..], width - 1)
  }

  /** `width` fields of a data line: quotes removed, extra fields dropped, missing ones empty; a blank line is all empty. */
  function Fields(line: Option<string>, width: nat): (r: seq<string>)
    ensures |r| == width
  {
    match line
    case None => Fit([], width)
    case Some(l) => Fit(Unquote(Split(l, ',')), width)
  }

  /**
   * pandas' forward fill: a missing cell takes the nearest present cell above
   * it; present cells stay as they are.
   */
  function FillForward(col: seq<Level>): (r: seq<Level>)
    ensures |r| == |col|
  {
    if |col| == 0 then []
    else
      var front := FillForward(col[..|col| - 1]);
      front + [if col[|col| - 1].Some? then col[|col| - 1] else if |front| == 0 then None else front[|front| - 1]]
  }

  /** Each filled cell is the last present cell at or above it, and present cells are unchanged. */
  lemma {:induction false} FillForwardSpec(col: seq<Level>)
    ensures forall i :: 0 <= i < |col| ==> FillForward(col)[i] == LastPresent(col[..i + 1])
    ensures forall i :: 0 <= i < |col| && col[i].Some? ==> FillForward(col)[i] == col[i]
    decreases |col|
  {
    if |col| > 0 {
      var n := |col| - 1;
      var front := col[..n];
      FillForwardSpec(front);
      forall i | 0 <= i < |col| ensures FillForward(col)[i] == LastPresent(col[..i + 1]) {
        if i < n {
          assert col[..i + 1] == front[..i + 1];
        } else {
          assert col[..i + 1] == col;
          assert col[..n + 1][..n] == front;
          if n > 0 { assert front[..n] == front; }
          else { assert front == []; }
        }
      }
    }
  }

  /** Every filled cell below the first present one is present. */
  lemma FillForwardPresent(col: seq<Level>, i: nat, j: nat)
    requires i <= j < |col| && col[i].Some?
    ensures FillForward(col)[j].Some?
  {
    FillForwardSpec(col);
    assert col[..j + 1][i] == col[i];
  }

  /** A block of data: one key per row (its dimension values), the date columns, and a row of values per key. */
  datatype Block = Block(keys: seq<Key>, cols: seq<Date>, values: seq<seq<Option<int>>>)

  /** The raw fields of the rows `start`..`start + count - 1` that exist in the file. */
  function RawRows(lines: Lines, start: nat, count: nat, width: nat): (r: seq<seq<string>>)
    ensures |r| == (if start + count <= |lines| then count else if start <= |lines| then |lines| - start else 0)
    ensures forall k :: 0 <= k < |r| ==> |r[k]| == width
    decreases count
  {
    if count == 0 || start >= |lines| then []
    else [Fields(lines[start], width)] + RawRows(lines, start + 1, count - 1, width)
  }

  /** Column `j` of the raw rows as dimension cells, forward-filled. */
  function DimensionColumn(raw: seq<seq<string>>, j: nat): (r: seq<Level>)
    requires forall k :: 0 <= k < |raw| ==> j < |raw[k]|
    ensures |r| == |raw|
  {
    FillForward(seq(|raw|, k requires 0 <= k < |raw| => LevelOf(raw[k][j])))
  }

  /** The value cells of one raw row, after its `d` dimension fields. */
  function RowValues(row: seq<string>, d: nat): (r: Result<seq<Option<int>>, Fault>)
    requires d <= |row|
    ensures r.Ok? <==> forall j :: d <= j < |row| ==> ValueOf(row[j]).Ok?
    ensures r.Err? ==> r.error.Unexpected?
    ensures r.Ok? ==> |r.value| == |row| - d && forall j :: d <= j < |row| ==> Ok(r.value[j - d]) == ValueOf(row[j])
    decreases |row| - d
  {
    if d == |row| then Ok([])
    else
      match ValueOf(row[d])
      case Err(e) => Err(e)
      case Ok(v) =>
        match RowValues(row, d + 1)
        case Err(e) => Err(e)
        case Ok(rest) => Ok([v] + rest)
  }

  function AllRowValues(raw: seq<seq<string>>, d: nat): (r: Result<seq<seq<Option<int>>>, Fault>)
    requires forall k :: 0 <= k < |raw| ==> d <= |raw[k]|
    ensures r.Ok? <==> forall k :: 0 <= k < |raw| ==> RowValues(raw[k], d).Ok?
    ensures r.Err? ==> r.error.Unexpected?
    ensures r.Ok? ==> |r.value| == |raw| && forall k :: 0 <= k < |raw| ==> Ok(r.value[k]) == RowValues(raw[k], d)
  {
    if |raw| == 0 then Ok([])
    else
      match RowValues(raw[0], d)
      case Err(e) => Err(e)
      case Ok(v) =>
        match AllRowValues(raw[1..], d)
        case Err(e) => Err(e)
        case Ok(rest) => Ok([v] + rest)
  }

  /** The row keys: row `k`'s key holds, for each of the first `d` columns, that column's forward-filled cell. */
  function KeysOf(raw: seq<seq<string>>, d: nat): (r: seq<Key>)
    requires forall k :: 0 <= k < |raw| ==> d <= |raw[k]|
    ensures |r| == |raw|
    ensures forall k :: 0 <= k < |raw| ==> |r[k]| == d
    ensures forall k, j :: 0 <= k < |raw| && 0 <= j < d ==> r[k][j] == DimensionColumn(raw, j)[k]
  {
    seq(|raw|, k requires 0 <= k < |raw| => seq(d, j requires 0 <= j < d => DimensionColumn(raw, j)[k]))
  }

  /**
   * One iteration of _create_data: the rows from two lines below the block's
   * marker to its end, read with the dimension and date names, the dimension
   * columns forward-filled into the row keys and the date headers converted.
   * Repeated names, a negative row count, a value that is not a number and a
   * date header that does not convert are errors of the reader.
   */
  function BlockOf(lines: Lines, m: Marker, dims: seq<string>, dates: seq<string>, per: Periodicity): (r: Result<Block, Fault>)
    ensures r.Err? ==> r.error.Unexpected?
    ensures r.Ok? ==> Distinct(dims + dates) && m.start + 2 >= 0 && m.end - m.start - 1 >= 0
    ensures r.Ok? ==>
              var raw := RawRows(lines, m.start + 2, m.end - m.start - 1, |dims| + |dates|);
              && r.value.keys == KeysOf(raw, |dims|)
              && AllRowValues(raw, |dims|) == Ok(r.value.values)
              && ConvertColumnDates(per, dates) == Ok(r.value.cols)
  {
    // the rows run from two lines below the marker to its end: m.end - (m.start + 2) + 1 of them
    if !Distinct(dims + dates) then Err(Unexpected("Duplicate names are not allowed."))
    else if m.end - m.start - 1 < 0 || m.start + 2 < 0 then Err(Unexpected("'nrows' must be an integer >=0"))
    else
      var raw := RawRows(lines, m.start + 2, m.end - m.start - 1, |dims| + |dates|);
      match AllRowValues(raw, |dims|)
      case Err(e) => Err(e)
      case Ok(values) =>
        match ConvertColumnDates(per, dates)
        case Err(e) => Err(e)
        case Ok(cols) => Ok(Block(KeysOf(raw, |dims|), cols, values))
  }

  /**
   * The data of a visualisation: one block per periodicity, read from the last
   * data block that has that periodicity.
   */
  predicate DataOf(lines: Lines, markers: seq<Marker>, dims: seq<string>, dates: seq<seq<string>>,
                   periods: seq<Periodicity>, data: map<Periodicity, Block>)
  {
    && (|periods| > 0 ==> |periods| < |markers| && |periods| <= |dates|)
    && data.Keys == (set i | 0 <= i < |periods| :: periods[i])
    && forall i {:trigger LastOf(periods, i)} :: 0 <= i < |periods| && LastOf(periods, i) ==>
         i + 1 < |markers| && i < |dates| && BlockOf(lines, markers[i + 1], dims, dates[i], periods[i]) == Ok(data[periods[i]])
  }

  /** No later data block has the periodicity of block `i`. */
  predicate LastOf(periods: seq<Periodicity>, i: int)
  {
    0 <= i < |periods| && forall j :: i < j < |periods| ==> periods[j] != periods[i]
  }

  /** Every data block, each with its date header and periodicity, can be read. */
  predicate BlocksRead(lines: Lines, markers: seq<Marker>, dims: seq<string>, dates: seq<seq<string>>, periods: seq<Periodicity>)
  {
    forall i :: 0 <= i < |periods| ==>
      i + 1 < |markers| && i < |dates| && BlockOf(lines, markers[i + 1], dims, dates[i], periods[i]).Ok?
  }

  /** `data` maps each periodicity among the first |got| to the latest of those blocks read for it. */
  predicate KeepsLatest(periods: seq<Periodicity>, got: seq<Block>, data: map<Periodicity, Block>)
  {
    && |got| <= |periods|
    && data.Keys == (set j | 0 <= j < |got| :: periods[j])
    && forall j :: 0 <= j < |got| && LastBefore(periods, j, |got|) ==> data[periods[j]] == got[j]
  }

  /** No periodicity after `j` and before `n` is `j`'s. */
  predicate LastBefore(periods: seq<Periodicity>, j: nat, n: nat)
    requires j < n <= |periods|
  {
    forall k :: j < k < n ==> periods[k] != periods[j]
  }

  /** Storing the next block under its periodicity keeps every entry the latest block. */
  lemma KeepsLatestStep(periods: seq<Periodicity>, got: seq<Block>, data: map<Periodicity, Block>, block: Block)
    requires KeepsLatest(periods, got, data) && |got| < |periods|
    ensures KeepsLatest(periods, got + [block], data[periods[|got|] := block])
  {
    var got', stored := got + [block], data[periods[|got|] := block];
    assert stored.Keys == (set j | 0 <= j < |got'| :: periods[j]) by {
      PeriodsStep(periods, |got|);
    }
    forall j | 0 <= j < |got'| && LastBefore(periods, j, |got'|) ensures stored[periods[j]] == got'[j] {
      LatestEntry(periods, got, data, block, j);
    }
  }

  /** The entry of a block that stays the latest after the next one is stored. */
  lemma LatestEntry(periods: seq<Periodicity>, got: seq<Block>, data: map<Periodicity, Block>, block: Block, j: nat)
    requires KeepsLatest(periods, got, data) && |got| < |periods|
    requires j <= |got| && LastBefore(periods, j, |got| + 1)
    ensures periods[j] in data[periods[|got|] := block]
    ensures data[periods[|got|] := block][periods[j]] == (got + [block])[j]
  {
    var n := |got|;
    if j < n {
      assert periods[n] != periods[j] && periods[j] in data.Keys;
      assert LastBefore(periods, j, n);
    }
  }

  /** The periodicities of the first n + 1 blocks are those of the first n and the next one. */
  lemma PeriodsStep(periods: seq<Periodicity>, n: nat)
    requires n < |periods|
    ensures (set j | 0 <= j < n + 1 :: periods[j]) == (set j | 0 <= j < n :: periods[j]) + {periods[n]}
  {
    var before, after := set j | 0 <= j < n :: periods[j], set j | 0 <= j < n + 1 :: periods[j];
    forall p | p in after ensures p in before + {periods[n]} {
      var j :| 0 <= j < n + 1 && periods[j] == p;
      if j < n { assert p in before; }
    }
  }

  /** Once every periodicity is read, each last occurrence's block is stored. */
  lemma KeepsLatestAll(periods: seq<Periodicity>, got: seq<Block>, data: map<Periodicity, Block>)
    requires KeepsLatest(periods, got, data) && |got| == |periods|
    ensures forall i :: 0 <= i < |periods| && LastOf(periods, i) ==> data[periods[i]] == got[i]
  {
  }

  /** _create_data: a block per periodicity, a later block of the same periodicity replacing an earlier one. */
  method CreateData(lines: Lines, markers: seq<Marker>, dims: seq<string>, dates: seq<seq<string>>, periods: seq<Periodicity>)
    returns (r: Result<map<Periodicity, Block>, Fault>)
    ensures r.Ok? <==> BlocksRead(lines, markers, dims, dates, periods)
    ensures r.Err? ==> r.error.Unexpected?
    ensures r.Ok? ==> DataOf(lines, markers, dims, dates, periods, r.value)
  {
    var data: map<Periodicity, Block> := map[];
    ghost var got: seq<Block> := [];
    for i := 0 to |periods|
      invariant i > 0 ==> i < |markers| && i <= |dates|
      invariant |got| == i && KeepsLatest(periods, got, data)
      invariant forall j {:trigger BlockOf(lines, markers[j + 1], dims, dates[j], periods[j])} :: 0 <= j < i ==>
                  j + 1 < |markers| && j < |dates| && BlockOf(lines, markers[j + 1], dims, dates[j], periods[j]) == Ok(got[j])
    {
      var per := periods[i];
      if i + 1 >= |markers| || i >= |dates| {
        return Err(Unexpected("list index out of range"));
      }
      var block := BlockOf(lines, markers[i + 1], dims, dates[i], per);
      if block.Err? {
        return Err(block.error);
      }
      KeepsLatestStep(periods, got, data, block.value);
      data, got := data[per := block.value], got + [block.value];
    }
    KeepsLatestAll(periods, got, data);
    return Ok(data);
  }

  /**
   * What the preliminary read establishes: the markers of _retrieve_markers
   * (the metadata above the first date header, then one block per date
   * header), the date header of every data block, a "Date" column in every
   * block's header, the dimensions of the last block and the periodicity of
   * every data block.
   */
  predicate PrelimOf(lines: Lines, markers: seq<Marker>, dates: seq<seq<string>>,
                     dimensions: seq<string>, periodicities: seq<Periodicity>)
  {
    && MarkersOf(lines, markers)
    && |markers| == |RowsContaining(lines, ",Date")| + 1
    && DatesOf(lines, DataMarkers(markers), dates)
    && AllHeaderDims(lines, DataMarkers(markers))
    && Some(dimensions) == HeaderDims(lines, markers[|markers| - 1])
    && PeriodsOf(lines, DataMarkers(markers), periodicities)
  }

  /** What the four preliminary steps establish together makes up the preliminary information. */
  lemma PrelimOfParts(lines: Lines, markers: seq<Marker>, dates: seq<seq<string>>,
                      dimensions: seq<string>, periodicities: seq<Periodicity>)
    requires MarkersOf(lines, markers)
    requires DatesOf(lines, DataMarkers(markers), dates)
    requires |DataMarkers(markers)| > 0 && AllHeaderDims(lines, DataMarkers(markers))
    requires Some(dimensions) == HeaderDims(lines, DataMarkers(markers)[|DataMarkers(markers)| - 1])
    requires PeriodsOf(lines, DataMarkers(markers), periodicities)
    ensures PrelimOf(lines, markers, dates, dimensions, periodicities)
  {
    assert DataMarkers(markers)[|DataMarkers(markers)| - 1] == markers[|markers| - 1];
  }

  /** The date headers and the periodicities of a file's blocks are determined by its lines. */
  lemma HeadersUnique(lines: Lines, blocks: seq<Marker>, d1: seq<seq<string>>, p1: seq<Periodicity>,
                      d2: seq<seq<string>>, p2: seq<Periodicity>)
    requires DatesOf(lines, blocks, d1) && DatesOf(lines, blocks, d2)
    requires PeriodsOf(lines, blocks, p1) && PeriodsOf(lines, blocks, p2)
    ensures d1 == d2 && p1 == p2
  {
    forall i | 0 <= i < |blocks|
      ensures p1[i] == p2[i]
    {
      assert [p1[i]][0] == p1[i] && [p2[i]][0] == p2[i];
    }
  }

  /** A file has at most one preliminary reading. */
  lemma PrelimUnique(lines: Lines, m1: seq<Marker>, d1: seq<seq<string>>, x1: seq<string>, p1: seq<Periodicity>,
                     m2: seq<Marker>, d2: seq<seq<string>>, x2: seq<string>, p2: seq<Periodicity>)
    requires PrelimOf(lines, m1, d1, x1, p1) && PrelimOf(lines, m2, d2, x2, p2)
    ensures m1 == m2 && d1 == d2 && x1 == x2 && p1 == p2
  {
    MarkersUnique(lines, m1, m2);
    HeadersUnique(lines, DataMarkers(m1), d1, p1, d2, p2);
  }

  /** The file has a preliminary reading. */
  ghost predicate HasPrelim(lines: Lines)
  {
    exists m, d, x, p :: PrelimOf(lines, m, d, x, p)
  }

  /** Once the markers are known, any preliminary reading of the file has those markers. */
  lemma PrelimAt(lines: Lines, markers: seq<Marker>)
    requires MarkersOf(lines, markers)
    ensures HasPrelim(lines) ==> exists d, x, p :: PrelimOf(lines, markers, d, x, p)
    ensures HasPrelim(lines) ==>
              var blocks := DataMarkers(markers);
              && (forall i :: 0 <= i < |blocks| ==> LineAt(lines, blocks[i].start + 1).Some?)
              && (forall i :: 0 <= i < |blocks| ==>
                    FirstDate(lines, blocks[i].start).Some? && |DateMatches(FirstDate(lines, blocks[i].start).value)| == 1)
  {
    if HasPrelim(lines) {
      var m, d, x, p :| PrelimOf(lines, m, d, x, p);
      MarkersUnique(lines, markers, m);
      DatesNeed(lines, DataMarkers(m), d);
      PeriodsNeed(lines, DataMarkers(m), p);
    }
  }

  /** Dates read for every block mean every block has a line of dates. */
  lemma DatesNeed(lines: Lines, blocks: seq<Marker>, dates: seq<seq<string>>)
    requires DatesOf(lines, blocks, dates)
    ensures forall i :: 0 <= i < |blocks| ==> LineAt(lines, blocks[i].start + 1).Some?
  {
    forall i | 0 <= i < |blocks| ensures LineAt(lines, blocks[i].start + 1).Some? {
      var ofBlock := dates[i];
    }
  }

  /** A periodicity read for every block means every block's first date matches exactly one periodicity. */
  lemma PeriodsNeed(lines: Lines, blocks: seq<Marker>, periods: seq<Periodicity>)
    requires PeriodsOf(lines, blocks, periods)
    ensures forall i :: 0 <= i < |blocks| ==>
              FirstDate(lines, blocks[i].start).Some? && |DateMatches(FirstDate(lines, blocks[i].start).value)| == 1
  {
    forall i | 0 <= i < |blocks|
      ensures FirstDate(lines, blocks[i].start).Some? && |DateMatches(FirstDate(lines, blocks[i].start).value)| == 1
    {
      var ofBlock := periods[i];
    }
  }

  /**
   * The markers, the date headers, the dimensions and the periodicities, in
   * the order the preliminary read takes them; the read succeeds exactly on
   * the files that have a preliminary reading.
   */
  method ReadPrelim(lines: Lines) returns (r: Result<(seq<Marker>, seq<seq<string>>, seq<string>, seq<Periodicity>), Fault>)
    ensures RowsContaining(lines, ",Date") == [] ==> r.Err? && r.error.Unexpected?
    ensures r.Ok? <==> HasPrelim(lines)
    ensures r.Ok? ==> PrelimOf(lines, r.value.0, r.value.1, r.value.2, r.value.3)
  {
    var m := RetrieveMarkers(lines);
    if m.Err? {
      return Err(m.error);
    }
    PrelimAt(lines, m.value);
    var d := RetrieveDates(lines, m.value);
    if d.Err? {
      return Err(d.error);
    }
    var dims := RetrieveDimensions(lines, m.value);
    if dims.Err? {
      return Err(dims.error);
    }
    var p := DeterminePeriodicity(lines, m.value);
    if p.Err? {
      return Err(p.error);
    }
    PrelimOfParts(lines, m.value, d.value, dims.value, p.value);
    return Ok((m.value, d.value, dims.value, p.value));
  }

  /** The metadata above the first block and every data block can be read. */
  ghost predicate ContentReadable(lines: Lines, markers: seq<Marker>, dims: seq<string>, dates: seq<seq<string>>, periods: seq<Periodicity>)
  {
    && |markers| > 0
    && (exists m :: MetaOf(lines, markers[0].end, m))
    && BlocksRead(lines, markers, dims, dates, periods)
  }

  /** The metadata above the first block, then the data blocks, as parse reads them after the preliminary read. */
  method ReadContent(lines: Lines, markers: seq<Marker>, dims: seq<string>, dates: seq<seq<string>>, periods: seq<Periodicity>)
    returns (r: Result<(Metadata, map<Periodicity, Block>), Fault>)
    ensures |markers| == 0 ==> r.Err? && r.error.Unexpected?
    ensures r.Ok? <==> ContentReadable(lines, markers, dims, dates, periods)
    ensures r.Ok? ==> |markers| > 0 && MetaOf(lines, markers[0].end, r.value.0)
    ensures r.Ok? ==> DataOf(lines, markers, dims, dates, periods, r.value.1)
  {
    if |markers| == 0 {
      return Err(Unexpected("list index out of range"));
    }
    var meta := ReadMeta(lines, markers[0].end);
    if meta.Err? {
      return Err(meta.error);
    }
    var data := CreateData(lines, markers, dims, dates, periods);
    if data.Err? {
      return Err(data.error);
    }
    return Ok((meta.value, data.value));
  }

  /** What parse learns about a file: the preliminary information, the modified flag, the metadata and the data blocks. */
  datatype Parsed = Parsed(markers: seq<Marker>, dates: seq<seq<string>>, dimensions: seq<string>,
                           periodicities: seq<Periodicity>, modified: bool, meta: Metadata,
                           data: map<Periodicity, Block>)

  predicate ParsedOf(lines: Lines, p: Parsed)
  {
    && PrelimOf(lines, p.markers, p.dates, p.dimensions, p.periodicities)
    && p.modified == DetermineModified(lines)
    && MetaOf(lines, p.markers[0].end, p.meta)
    && DataOf(lines, p.markers, p.dimensions, p.dates, p.periodicities, p.data)
  }

  /** The files parse reads: those with a preliminary reading whose metadata and data blocks can be read. */
  ghost predicate ParseSucceeds(lines: Lines)
  {
    exists m, d, x, p :: PrelimOf(lines, m, d, x, p) && ContentReadable(lines, m, x, d, p)
  }

  /** Given the file's preliminary reading, parse succeeds exactly when its content can be read. */
  lemma ParseSucceedsAt(lines: Lines, m: seq<Marker>, d: seq<seq<string>>, x: seq<string>, p: seq<Periodicity>)
    requires PrelimOf(lines, m, d, x, p)
    ensures ParseSucceeds(lines) <==> ContentReadable(lines, m, x, d, p)
  {
    if ParseSucceeds(lines) {
      var m', d', x', p' :| PrelimOf(lines, m', d', x', p') && ContentReadable(lines, m', x', d', p');
      PrelimUnique(lines, m, d, x, p, m', d', x', p');
    }
  }

  /** The steps of parse on the file's lines: the preliminary read, the modified check, then the metadata and the data. */
  method ParseLines(lines: Lines) returns (r: Result<Parsed, Fault>)
    ensures RowsContaining(lines, ",Date") == [] ==> r.Err? && r.error.Unexpected?
    ensures r.Ok? <==> ParseSucceeds(lines)
    ensures r.Ok? ==> ParsedOf(lines, r.value)
  {
    var prelim := ReadPrelim(lines);
    if prelim.Err? {
      return Err(prelim.error);
    }
    var (markers, dates, dimensions, periodicities) := prelim.value;
    ParseSucceedsAt(lines, markers, dates, dimensions, periodicities);
    var modified := DetermineModified(lines);
    var content := ReadContent(lines, markers, dimensions, dates, periodicities);
    if content.Err? {
      return Err(content.error);
    }
    return Ok(Parsed(markers, dates, dimensions, periodicities, modified, content.value.0, content.value.1));
  }

  // ------------------------------------------------------------------ parser

  /**
   * check_filepath without its effects: the path must be a downloaded CSV,
   * its file name must yield a name, and the name must be new to the position.
   * An unnamed file (a stamp at the very start of its name) passes here.
   */
  function FilepathCheck(filepath: string, existing: seq<string>): (r: Result<Option<string>, Fault>)
    ensures ValidateFilepath(filepath).Fail? ==> r == Err(ValidateFilepath(filepath).error)
    ensures r.Ok? ==> ValidateFilepath(filepath).Pass? && DetermineName(BaseName(filepath)) == Ok(r.value)
    ensures r.Ok? && r.value.Some? ==> r.value.value !in existing
    ensures ValidateFilepath(filepath).Pass? && DetermineName(BaseName(filepath)).Ok? ==>
              var name := DetermineName(BaseName(filepath)).value;
              (r.Err? <==> name.Some? && name.value in existing)
              && (r.Err? ==> r.error.InvalidVisualisation? && r.error.short == "Visualisation already exists in position")
  {
    match ValidateFilepath(filepath)
    case Fail(e) => Err(e)
    case Pass =>
      match DetermineName(BaseName(filepath))
      case Err(e) => Err(e)
      case Ok(name) =>
        if name.Some? && ValidateUnique(name.value, existing).Fail? then Err(ValidateUnique(name.value, existing).error)
        else Ok(name)
  }

  /** The parser of one visualisation file, filling in what it learns about the file as it goes. */
  class VisualisationParser {
    const filepath: string
    var name: Option<string>
    var downloaded: int
    var markers: seq<Marker>
    var dates: seq<seq<string>>
    var dimensions: seq<string>
    var periodicities: seq<Periodicity>
    var modified: bool
    var meta: Metadata
    var data: map<Periodicity, Block>

    constructor (filepath: string)
      ensures this.filepath == filepath && name == None
      ensures markers == [] && dates == [] && dimensions == [] && periodicities == [] && data == map[]
    {
      this.filepath := filepath;
      name := None;
      downloaded := 0;
      markers := [];
      dates := [];
      dimensions := [];
      periodicities := [];
      modified := false;
      meta := Metadata("", "", "", "", map[]);
      data := map[];
    }

    /**
     * check_filepath: validates the path and the name against the names
     * already in the position, recording the name and the download time (the
     * file's creation time, passed in).
     */
    method CheckFilepath(existing: seq<string>, ctime: int) returns (r: Result<Option<string>, Fault>)
      modifies this`name, this`downloaded
      ensures r == FilepathCheck(filepath, existing)
      ensures r.Ok? ==> name == r.value && downloaded == ctime
      ensures ValidateFilepath(filepath).Pass? ==> DetermineName(BaseName(filepath)) == Ok(name) && downloaded == ctime
      ensures ValidateFilepath(filepath).Fail? ==> name == old(name) && downloaded == old(downloaded)
    {
      var valid := ValidateFilepath(filepath);
      if valid.Fail? {
        return Err(valid.error);
      }
      // A path that passes validation has a stamp, so the name pattern matches.
      StampedNamed(BaseName(filepath));
      var determined := DetermineName(BaseName(filepath));
      name := determined.value;
      downloaded := ctime;
      if name.Some? {
        var unique := ValidateUnique(name.value, existing);
        if unique.Fail? {
          return Err(unique.error);
        }
      }
      return Ok(name);
    }

    /** _prelim_read: the markers, the date headers, the dimensions and the periodicities. */
    method PrelimRead(lines: Lines) returns (r: Outcome<Fault>)
      modifies this`markers, this`dates, this`dimensions, this`periodicities
      ensures RowsContaining(lines, ",Date") == [] ==> r.Fail? && r.error.Unexpected?
      ensures r.Pass? <==> HasPrelim(lines)
      ensures r.Pass? ==> PrelimOf(lines, markers, dates, dimensions, periodicities)
    {
      var prelim := ReadPrelim(lines);
      if prelim.Err? {
        return Fail(prelim.error);
      }
      var (m, d, x, p) := prelim.value;
      assert PrelimOf(lines, m, d, x, p);
      markers, dates, dimensions, periodicities := m, d, x, p;
      return Pass;
    }

    /** What parse fills in. */
    function Contents(): Parsed
      reads this`markers, this`dates, this`dimensions, this`periodicities, this`modified, this`meta, this`data
    {
      Parsed(markers, dates, dimensions, periodicities, modified, meta, data)
    }

    /** Setting the fields parse fills in. */
    method Fill(p: Parsed)
      modifies this`markers, this`dates, this`dimensions, this`periodicities
      modifies this`modified, this`meta, this`data
      ensures Contents() == p
    {
      markers, dates, dimensions, periodicities := p.markers, p.dates, p.dimensions, p.periodicities;
      modified, meta, data := p.modified, p.meta, p.data;
    }

    /**
     * parse: the preliminary read, the modified check, the metadata above the
     * first block and the data blocks. The file's lines are passed in.
     */
    method Parse(lines: Lines) returns (r: Outcome<Fault>)
      modifies this`markers, this`dates, this`dimensions, this`periodicities
      modifies this`modified, this`meta, this`data
      ensures RowsContaining(lines, ",Date") == [] ==> r.Fail? && r.error.Unexpected?
      ensures r.Pass? <==> ParseSucceeds(lines)
      ensures r.Pass? ==> ParsedOf(lines, Contents())
    {
      var parsed := ParseLines(lines);
      if parsed.Err? {
        return Fail(parsed.error);
      }
      Fill(parsed.value);
      return Pass;
    }
  }

  // ------------------------------------------------------------ file items

  /** The states of a file in the visualisation list. */
  datatype FileState = Queued | Loading | Failure | Success

  const UploadFailed: string := "Failed to upload, contact OptiCORD team"

  /** A file in the visualisation list: its text, state, message and tooltip. */
  class VisualisationFile {
    const filepath: string
    var text: string
    var state: FileState
    var msg: string
    var tooltip: string

    constructor (filepath: string)
      ensures this.filepath == filepath && text == BaseName(filepath)
      ensures state == Queued && msg == "" && tooltip == ""
    {
      this.filepath := filepath;
      text := BaseName(filepath);
      state := Queued;
      msg := "";
      tooltip := "";
    }

    /**
     * The two exception handlers of the worker: a validation failure shows
     * its full text as the tooltip and its short text as the message; anything
     * else shows the generic message.
     */
    method Fail(f: Fault)
      modifies this
      ensures state == Failure && text == old(text)
      ensures f.InvalidVisualisation? ==> tooltip == f.full && msg == f.short
      ensures !f.InvalidVisualisation? ==> tooltip == old(tooltip) && msg == UploadFailed
    {
      if f.InvalidVisualisation? {
        tooltip := f.full;
        msg := f.short;
      } else {
        msg := UploadFailed;
      }
      state := Failure;
    }
  }

  /** Nothing in rows `from` onwards is still waiting or loading. */
  predicate Idle(states: seq<FileState>, from: nat)
  {
    forall i :: from <= i < |states| ==> states[i] != Loading && states[i] != Queued
  }

  /** The list of visualisation files of a position, and the names already in it. */
  class VisualisationList {
    var items: seq<VisualisationFile>
    var existing: seq<string>
    var position: string

    constructor ()
      ensures items == [] && existing == [] && position == ""
    {
      items := [];
      existing := [];
      position := "";
    }

    function States(): (r: seq<FileState>)
      reads this, items
      ensures |r| == |items| && forall i :: 0 <= i < |items| ==> r[i] == items[i].state
    {
      seq(|items|, i reads this, items requires 0 <= i < |items| => items[i].state)
    }

    /** determine_unlock as written: the scan starts at row 1, as if row 0 were a select-all row. */
    method DetermineUnlockAsWritten() returns (unlock: bool)
      ensures unlock <==> Idle(States(), 1)
    {
      unlock := true;
      var i := 1;
      while i < |items|
        invariant 1 <= i && (|items| >= 1 ==> i <= |items|)
        invariant unlock <==> forall j :: 1 <= j < i && j < |items| ==> items[j].state != Loading && items[j].state != Queued
      {
        if items[i].state == Loading || items[i].state == Queued {
          unlock := false;
        }
        i := i + 1;
      }
    }

    /** determine_unlock scanning every row: the list has no select-all row. */
    method DetermineUnlock() returns (unlock: bool)
      ensures unlock <==> Idle(States(), 0)
    {
      unlock := true;
      for i := 0 to |items|
        invariant unlock <==> forall j :: 0 <= j < i ==> items[j].state != Loading && items[j].state != Queued
      {
        if items[i].state == Loading || items[i].state == Queued {
          unlock := false;
        }
      }
    }

    /** add_to_existing. */
    method AddToExisting(vis: string)
      modifies this`existing
      ensures existing == old(existing) + [vis]
    {
      existing := existing + [vis];
    }

    /** remove_existing: Python's `list.remove`, which raises when the name is absent. */
    method RemoveExisting(vis: string) returns (r: Outcome<Fault>)
      modifies this`existing
      ensures r.Fail? <==> vis !in old(existing)
      ensures r.Fail? ==> r.error.Unexpected? && existing == old(existing)
      ensures r.Pass? ==> Some(existing) == RemoveFirst(old(existing), vis)
    {
      var removed := RemoveFirst(existing, vis);
      if removed.None? {
        return Fail(Unexpected("list.remove(x): x not in list"));
      }
      existing := removed.value;
      return Pass;
    }

    /** read_from_file: every name stored under the position joins `existing` and the list, as a loaded file. */
    method ReadFromFile(stored: seq<string>)
      modifies this`existing, this`items
      ensures existing == old(existing) + stored
      ensures |items| == |old(items)| + |stored| && items[..|old(items)|] == old(items)
      ensures forall i :: |old(items)| <= i < |items| ==> fresh(items[i])
      ensures forall i :: |old(items)| <= i < |items| ==>
                items[i].state == Success && items[i].text == BaseName(stored[i - |old(items)|])
    {
      var n := |items|;
      for k := 0 to |stored|
        invariant existing == old(existing) + stored[..k]
        invariant |items| == n + k && items[..n] == old(items)
        invariant forall i :: n <= i < |items| ==> fresh(items[i])
        invariant forall i :: n <= i < |items| ==> items[i].state == Success && items[i].text == BaseName(stored[i - n])
      {
        existing := existing + [stored[k]];
        var item := new VisualisationFile(stored[k]);
        item.state := Success;
        items := items + [item];
        assert stored[..k + 1] == stored[..k] + [stored[k]];
      }
      assert stored[..|stored|] == stored;
    }

    /**
     * add_file: a worker for the file, whose item joins the list; the worker is
     * started only when its file passes check_filepath.
     */
    method AddFile(filepath: string, ctime: int) returns (worker: VisualisationWorker, started: bool)
      modifies this`items, this`existing
      ensures fresh(worker) && fresh(worker.item) && worker.list == this && worker.parser.filepath == filepath
      ensures items == old(items) + [worker.item]
      ensures var check := FilepathCheck(filepath, old(existing));
              started <==> check.Ok? && check.value.Some?
      ensures started ==> existing == old(existing) + [worker.item.text] && worker.item.state == Queued
      ensures !started ==> existing == old(existing) && worker.item.state == Failure
      ensures Distinct(old(existing)) ==> Distinct(existing)
    {
      worker := new VisualisationWorker(filepath, this);
      items := items + [worker.item];
      started := worker.CheckFilepath(ctime);
    }

    /** change_position: any position but the placeholder clears the list and reloads it from the store. */
    method ChangePosition(newPosition: string, stored: seq<string>)
      modifies this`position, this`items, this`existing
      ensures newPosition == "Select position..." ==> position == old(position) && items == old(items) && existing == old(existing)
      ensures newPosition != "Select position..." ==> position == newPosition && existing == stored && |items| == |stored|
      ensures newPosition != "Select position..." ==>
                forall i :: 0 <= i < |items| ==> fresh(items[i]) && items[i].state == Success && items[i].text == BaseName(stored[i])
    {
      if newPosition == "Select position..." {
        return;
      }
      position, items, existing := newPosition, [], [];
      ReadFromFile(stored);
    }
  }

  /** The worker that checks and then reads one visualisation file, reporting to its list item. */
  class VisualisationWorker {
    const item: VisualisationFile
    const parser: VisualisationParser
    const list: VisualisationList

    constructor (filepath: string, list: VisualisationList)
      ensures this.list == list && fresh(item) && fresh(parser)
      ensures item.filepath == filepath && item.text == BaseName(filepath) && item.state == Queued
      ensures item.msg == "" && item.tooltip == ""
      ensures parser.filepath == filepath && parser.name == None
    {
      this.list := list;
      item := new VisualisationFile(filepath);
      parser := new VisualisationParser(filepath);
    }

    /**
     * check_filepath: a file that passes the parser's check renames its item and
     * joins the list's names; one that fails is reported on its item. A file
     * that passes without a name fails too, since its name cannot be emitted as
     * text, and is reported with the generic message.
     */
    method CheckFilepath(ctime: int) returns (ok: bool)
      modifies item, parser`name, parser`downloaded, list`existing
      ensures var check := FilepathCheck(parser.filepath, old(list.existing));
              ok <==> check.Ok? && check.value.Some?
      ensures ok ==> item.text == FilepathCheck(parser.filepath, old(list.existing)).value.value
                     && list.existing == old(list.existing) + [item.text] && item.state == old(item.state)
                     && item.msg == old(item.msg) && item.tooltip == old(item.tooltip)
      ensures !ok ==> list.existing == old(list.existing) && item.text == old(item.text) && item.state == Failure
      ensures var check := FilepathCheck(parser.filepath, old(list.existing));
              check.Err? && check.error.InvalidVisualisation? ==> item.msg == check.error.short && item.tooltip == check.error.full
      ensures var check := FilepathCheck(parser.filepath, old(list.existing));
              (check.Err? && !check.error.InvalidVisualisation?) || check == Ok(None) ==> item.msg == UploadFailed
      ensures Distinct(old(list.existing)) ==> Distinct(list.existing)
    {
      var check := parser.CheckFilepath(list.existing, ctime);
      match check
      case Err(f) =>
        item.Fail(f);
        ok := false;
      case Ok(None) =>
        item.Fail(Unexpected("emit(): argument 1 has unexpected type 'NoneType'"));
        ok := false;
      case Ok(Some(n)) =>
        item.text := n;
        list.AddToExisting(n);
        ok := true;
    }

    /**
     * run: the item is loading while the file is parsed and saved, then a
     * success, or a failure reported as check_filepath reports one. Whether the
     * save to the store succeeded is passed in.
     */
    method Run(lines: Lines, saved: Outcome<Fault>) returns (r: Outcome<Fault>)
      modifies item, parser`markers, parser`dates, parser`dimensions, parser`periodicities
      modifies parser`modified, parser`meta, parser`data
      ensures item.text == old(item.text)
      ensures r.Pass? <==> item.state == Success
      ensures r.Pass? <==> ParseSucceeds(lines) && saved.Pass?
      ensures r.Pass? ==>
                && saved.Pass? && ParsedOf(lines, parser.Contents())
      ensures RowsContaining(lines, ",Date") == [] ==> r.Fail? && item.msg == UploadFailed
      ensures r.Fail? ==> item.state == Failure
      ensures r.Fail? && r.error.InvalidVisualisation? ==> item.msg == r.error.short && item.tooltip == r.error.full
      ensures r.Fail? && !r.error.InvalidVisualisation? ==> item.msg == UploadFailed
    {
      item.state := Loading;
      r := parser.Parse(lines);
      if r.Pass? {
        r := saved;
      }
      if r.Pass? {
        item.state := Success;
      } else {
        item.Fail(r.error);
      }
    }
  }

  /**
   * The unlock scan as written misses a busy first row: it differs from the
   * full scan exactly when only row 0 is busy, as when the second of two files
   * has loaded (its worker's signal runs the scan) while the first still loads.
   */
  lemma UnlockMissesFirstRow(states: seq<FileState>)
    requires |states| >= 1
    ensures Idle(states, 1) && !Idle(states, 0) <==> (states[0] == Loading || states[0] == Queued) && Idle(states, 1)
    ensures var two := [Loading, Success]; Idle(two, 1) && !Idle(two, 0)
  {
    var two := [Loading, Success];
    assert two[0] == Loading;
  }
}
