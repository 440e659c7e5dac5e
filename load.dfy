/**
 * The first reader of CORD visualisation files, kept beside the current one:
 * it cuts the file into blocks without looking back for blank lines, stores
 * the metadata under its own short keys, names a visualisation after its
 * file, and keeps every file it opens in a registry by that name.
 */
module Load {
  import opened Wrappers
  import opened Text
  import opened Tables
  import opened Validation
  import Visualisations

  type Lines = Visualisations.Lines
  type Marker = Visualisations.Marker

  /**
   * The blocks retrieve_markers finds: the metadata block ends just above the
   * first date marker; every block but the last ends at the next criteria
   * line; the last ends at the end of the file.
   */
  predicate MarkersOf(lines: Lines, m: seq<Marker>)
  {
    BlocksOf(|lines|, Visualisations.RowsContaining(lines, ",Date"), Visualisations.RowsContaining(lines, "Criteria: "), m)
  }

  /**
   * retrieve_markers: a file without a date marker has no first marker to end
   * the metadata at, and a block other than the last without the criteria
   * line after it has no end; both raise IndexError.
   */
  method RetrieveMarkers(lines: Lines) returns (r: Result<seq<Marker>, Fault>)
    ensures var date := Visualisations.RowsContaining(lines, ",Date");
            var criteria := Visualisations.RowsContaining(lines, "Criteria: ");
            r.Ok? <==> |date| > 0 && (|date| == 1 || |date| <= |criteria|)
    ensures r.Err? ==> r.error.Unexpected?
    ensures r.Ok? ==> MarkersOf(lines, r.value)
  {
    var date := Visualisations.RowsContaining(lines, ",Date");
    var criteria := Visualisations.RowsContaining(lines, "Criteria: ");
    r := MarkersFrom(|lines|, date, criteria);
  }

  /** MarkersOf, given the number of lines and the date and criteria marker rows. */
  predicate BlocksOf(count: nat, date: seq<nat>, criteria: seq<nat>, m: seq<Marker>)
  {
    && |date| > 0 && (|date| == 1 || |date| <= |criteria|)
    && |m| == |date| + 1
    && m[0] == Visualisations.Marker(0, date[0] as int - 1)
    && (forall i :: 0 <= i < |date| - 1 ==> m[i + 1] == Visualisations.Marker(date[i], criteria[i + 1]))
    && m[|date|] == Visualisations.Marker(date[|date| - 1], count)
  }

  /** The marker rows fix the blocks: a file has one list of blocks. */
  lemma MarkersUnique(lines: Lines, a: seq<Marker>, b: seq<Marker>)
    requires MarkersOf(lines, a) && MarkersOf(lines, b)
    ensures a == b
  {
    var date, criteria := Visualisations.RowsContaining(lines, ",Date"), Visualisations.RowsContaining(lines, "Criteria: ");
    forall i | 0 <= i < |a|
      ensures a[i] == b[i]
    {
      if 0 < i < |date| {
        var j := i - 1;
        assert a[j + 1] == Visualisations.Marker(date[j], criteria[j + 1]) == b[j + 1];
      }
    }
  }

  /** The loop of retrieve_markers over the date marker rows `date` of a file of `count` lines. */
  method MarkersFrom(count: nat, date: seq<nat>, criteria: seq<nat>) returns (r: Result<seq<Marker>, Fault>)
    requires Visualisations.IncreasingIndices(date)
    ensures r.Ok? <==> |date| > 0 && (|date| == 1 || |date| <= |criteria|)
    ensures r.Err? ==> r.error.Unexpected?
    ensures r.Ok? ==> BlocksOf(count, date, criteria, r.value)
  {
    if |date| == 0 {
      return Err(Unexpected("list index out of range"));
    }
    var markers := [Visualisations.Marker(0, date[0] as int - 1)];
    var n := |date|;
    for i := 0 to n
      invariant |markers| == i + 1 && markers[0] == Visualisations.Marker(0, date[0] as int - 1)
      invariant i >= n - 1 && n >= 2 ==> n <= |criteria|
      invariant forall j :: 0 <= j < i && j < n - 1 ==>
                  j + 1 < |criteria| && markers[j + 1] == Visualisations.Marker(date[j], criteria[j + 1])
      invariant i == n ==> markers[n] == Visualisations.Marker(date[n - 1], count)
    {
      var d := date[i];
      if d == date[n - 1] {
        assert i == n - 1;
        markers := markers + [Visualisations.Marker(d, count)];
      } else {
        if i + 1 >= |criteria| {
          return Err(Unexpected("list index out of range"));
        }
        markers := markers + [Visualisations.Marker(d, criteria[i + 1])];
      }
    }
    return Ok(markers);
  }

  /**
   * Both readers find the same blocks starting at the same lines, and the
   * same metadata block; every data block but the last ends two lines later
   * here, and the last ends at the end of the file rather than at its last
   * non-blank line.
   */
  lemma MarkersCompared(lines: Lines, legacy: seq<Marker>, current: seq<Marker>)
    requires MarkersOf(lines, legacy) && Visualisations.MarkersOf(lines, current)
    ensures |legacy| == |current| && legacy[0] == current[0]
    ensures forall i :: 1 <= i < |legacy| ==> legacy[i].start == current[i].start
    ensures forall i :: 1 <= i < |legacy| - 1 ==> legacy[i].end == current[i].end + 2
    ensures legacy[|legacy| - 1].end > current[|current| - 1].end
  {
    BlocksCompared(lines, Visualisations.RowsContaining(lines, ",Date"),
                   Visualisations.RowsContaining(lines, "Criteria: "), legacy, current);
  }

  lemma BlocksCompared(lines: Lines, date: seq<nat>, criteria: seq<nat>, legacy: seq<Marker>, current: seq<Marker>)
    requires BlocksOf(|lines|, date, criteria, legacy) && Visualisations.BlocksOf(lines, date, criteria, current)
    ensures |legacy| == |current| && legacy[0] == current[0]
    ensures forall i :: 1 <= i < |legacy| ==> legacy[i].start == current[i].start
    ensures forall i :: 1 <= i < |legacy| - 1 ==> legacy[i].end == current[i].end + 2
    ensures legacy[|legacy| - 1].end > current[|current| - 1].end
  {
    var n := |date|;
    forall i | 1 <= i < n + 1 ensures legacy[i].start == current[i].start {
      if i < n {
        var j := i - 1;
        assert legacy[j + 1] == Visualisations.Marker(date[j], criteria[j + 1]);
        assert current[j + 1] == Visualisations.Marker(date[j], criteria[j + 1] as int - 2);
      }
    }
    forall i | 1 <= i < n ensures legacy[i].end == current[i].end + 2 {
      var j := i - 1;
      assert legacy[j + 1] == Visualisations.Marker(date[j], criteria[j + 1]);
      assert current[j + 1] == Visualisations.Marker(date[j], criteria[j + 1] as int - 2);
    }
  }

  /** The `info` dictionary of the preliminary read: the blocks, the date headers, the last block's dimensions and the periodicities. */
  datatype Info = Info(markers: seq<Marker>, dates: seq<seq<string>>, dimensions: seq<string>, periodicities: seq<Periodicity>)

  /** What the preliminary read learns about a file. */
  predicate PrelimOf(lines: Lines, info: Info)
  {
    MarkersOf(lines, info.markers) && HeadersOf(lines, info.markers, info.dates, info.dimensions, info.periodicities)
  }

  /**
   * What the preliminary read learns from the headers of the data blocks:
   * their dates, a "Date" column in every header, the last one's dimensions
   * and their periodicities.
   */
  predicate HeadersOf(lines: Lines, markers: seq<Marker>, dates: seq<seq<string>>, dimensions: seq<string>, periodicities: seq<Periodicity>)
  {
    && |markers| > 0
    && Visualisations.DatesOf(lines, Visualisations.DataMarkers(markers), dates)
    && |Visualisations.DataMarkers(markers)| > 0 && Visualisations.AllHeaderDims(lines, Visualisations.DataMarkers(markers))
    && Some(dimensions) == Visualisations.HeaderDims(lines, markers[|markers| - 1])
    && Visualisations.PeriodsOf(lines, Visualisations.DataMarkers(markers), periodicities)
  }

  /** prelim_read: the markers, the date headers, the dimensions and the periodicities. */
  method PrelimRead(lines: Lines) returns (r: Result<Info, Fault>)
    ensures Visualisations.RowsContaining(lines, ",Date") == [] ==> r.Err? && r.error.Unexpected?
    ensures r.Ok? <==> HasPrelim(lines)
    ensures r.Ok? ==> |r.value.markers| > 0 && PrelimOf(lines, r.value)
  {
    var m := RetrieveMarkers(lines);
    if m.Err? {
      return Err(m.error);
    }
    PrelimAt(lines, m.value);
    var rest := PrelimRest(lines, m.value);
    if rest.Err? {
      return Err(rest.error);
    }
    var info := Info(m.value, rest.value.0, rest.value.1, rest.value.2);
    assert PrelimOf(lines, info);
    return Ok(info);
  }

  /** Some preliminary information can be read from the file. */
  ghost predicate HasPrelim(lines: Lines)
  {
    exists info :: PrelimOf(lines, info)
  }

  /** Once the blocks are known, the preliminary information exists exactly when their headers can be read. */
  lemma PrelimAt(lines: Lines, markers: seq<Marker>)
    requires MarkersOf(lines, markers)
    ensures HasPrelim(lines) <==> HasHeaders(lines, markers)
  {
    if HasPrelim(lines) {
      var info :| PrelimOf(lines, info);
      MarkersUnique(lines, markers, info.markers);
      assert HeadersOf(lines, markers, info.dates, info.dimensions, info.periodicities);
    }
    if HasHeaders(lines, markers) {
      var d, x, p :| HeadersOf(lines, markers, d, x, p);
      assert PrelimOf(lines, Info(markers, d, x, p));
    }
  }

  /** The headers of the blocks `markers` can be read. */
  ghost predicate HasHeaders(lines: Lines, markers: seq<Marker>)
  {
    exists d, x, p :: HeadersOf(lines, markers, d, x, p)
  }

  /** Headers that can be read meet what each header step demands. */
  lemma HeadersNeed(lines: Lines, markers: seq<Marker>)
    ensures HasHeaders(lines, markers) ==>
              var blocks := Visualisations.DataMarkers(markers);
              && (forall i :: 0 <= i < |blocks| ==> Visualisations.LineAt(lines, blocks[i].start + 1).Some?)
              && (forall i :: 0 <= i < |blocks| ==>
                    && Visualisations.FirstDate(lines, blocks[i].start).Some?
                    && |DateMatches(Visualisations.FirstDate(lines, blocks[i].start).value)| == 1)
  {
    if HasHeaders(lines, markers) {
      var d, x, p :| HeadersOf(lines, markers, d, x, p);
      Visualisations.DatesNeed(lines, Visualisations.DataMarkers(markers), d);
      Visualisations.PeriodsNeed(lines, Visualisations.DataMarkers(markers), p);
    }
  }

  /** The rest of prelim_read once the markers are known: the date headers, the dimensions and the periodicities. */
  method PrelimRest(lines: Lines, markers: seq<Marker>) returns (r: Result<(seq<seq<string>>, seq<string>, seq<Periodicity>), Fault>)
    requires |markers| > 0
    ensures r.Ok? <==> HasHeaders(lines, markers)
    ensures r.Ok? ==> HeadersOf(lines, markers, r.value.0, r.value.1, r.value.2)
  {
    HeadersNeed(lines, markers);
    var d := Visualisations.RetrieveDates(lines, markers);
    if d.Err? {
      return Err(d.error);
    }
    var dims := Visualisations.RetrieveDimensions(lines, markers);
    if dims.Err? {
      return Err(dims.error);
    }
    var p := Visualisations.DeterminePeriodicity(lines, markers);
    if p.Err? {
      return Err(p.error);
    }
    assert HeadersOf(lines, markers, d.value, dims.value, p.value);
    return Ok((d.value, dims.value, p.value));
  }

  /** What both reads of __post_init__ learn: the preliminary information, then the metadata above the first block. */
  predicate ContentsOf(lines: Lines, info: Info, meta: Visualisations.Metadata)
  {
    |info.markers| > 0 && PrelimOf(lines, info) && Visualisations.MetaOf(lines, info.markers[0].end, meta)
  }

  // ---------------------------------------------------------------- metadata

  /** A value of the metadata dictionary: a text, or the nested coverage dictionary. */
  datatype MetaValue = Text(text: string) | Nested(entries: map<string, string>)

  /** The metadata as read_meta stores them, under its own keys. */
  function Stored(m: Visualisations.Metadata): (d: map<string, MetaValue>)
    ensures d.Keys == {"Stat Act", "Dataset", "Mode", "Status", "Coverage"}
  {
    map["Stat Act" := Text(m.statisticalActivity), "Dataset" := Text(m.dataset), "Mode" := Text(m.mode),
        "Status" := Text(m.status), "Coverage" := Nested(m.coverage)]
  }

  function TextAt(d: map<string, MetaValue>, key: string): string
  {
    if key in d && d[key].Text? then d[key].text else ""
  }

  /** The metadata a stored dictionary holds. */
  function Unstored(d: map<string, MetaValue>): (m: Visualisations.Metadata)
    ensures "Coverage" in d && d["Coverage"].Nested? ==> m.coverage == d["Coverage"].entries
  {
    Visualisations.Metadata(TextAt(d, "Stat Act"), TextAt(d, "Dataset"), TextAt(d, "Mode"), TextAt(d, "Status"),
                            if "Coverage" in d && d["Coverage"].Nested? then d["Coverage"].entries else map[])
  }

  /** Storing the metadata loses nothing. */
  lemma StoredRoundTrip(m: Visualisations.Metadata)
    ensures Unstored(Stored(m)) == m
  {
  }

  /** A header block has at most one reading, so both readers agree on the metadata they accept. */
  lemma MetaOfUnique(lines: Lines, end: int, a: Visualisations.Metadata, b: Visualisations.Metadata)
    requires Visualisations.MetaOf(lines, end, a) && Visualisations.MetaOf(lines, end, b)
    ensures a == b
  {
  }

  /**
   * read_meta, given the blocks: the same readings of the lines above the
   * first block as the current reader's, the statistical activity reported
   * missing under the key "Stat Act".
   */
  method ReadMeta(lines: Lines, markers: seq<Marker>) returns (r: Result<Visualisations.Metadata, Fault>)
    ensures |markers| == 0 ==> r.Err? && r.error.Unexpected?
    ensures r.Ok? <==> |markers| > 0 && exists m :: Visualisations.MetaOf(lines, markers[0].end, m)
    ensures r.Ok? ==> |markers| > 0 && Visualisations.MetaOf(lines, markers[0].end, r.value)
    ensures |markers| > 0 ==>
              var ml := Visualisations.MetaLines(lines, markers[0].end);
              ml.Ok? && |ml.value| > 0 && FirstMatch(StatisticalActivityPattern, ml.value).None?
              ==> r == Err(MissingMeta("Stat Act", ml.value))
  {
    if |markers| == 0 {
      return Err(Unexpected("list index out of range"));
    }
    Visualisations.MetaNeeds(lines, markers[0].end);
    var metaLines := Visualisations.MetaLines(lines, markers[0].end);
    if metaLines.Err? {
      return Err(metaLines.error);
    }
    var meta := metaLines.value;
    var activity := ValidateMeta("Stat Act", StatisticalActivityPattern, meta);
    if activity.Err? {
      return Err(activity.error);
    }
    var datasetMode := ValidateMeta("Dataset:Mode", DatasetPattern, meta);
    if datasetMode.Err? {
      return Err(datasetMode.error);
    }
    var status := ValidateMeta("Status", StatusPattern, meta);
    if status.Err? {
      return Err(status.error);
    }
    var coverage := Visualisations.ReadCoverage(meta);
    if coverage.Err? {
      return Err(coverage.error);
    }
    var read := Visualisations.Metadata(activity.value, BeforeLast(datasetMode.value, ':'),
                                        AfterLast(datasetMode.value, ':'), status.value, coverage.value);
    assert Visualisations.MetaOf(lines, markers[0].end, read);
    return Ok(read);
  }

  /** A file has at most one reading of its preliminary information. */
  lemma PrelimUnique(lines: Lines, a: Info, b: Info)
    requires PrelimOf(lines, a) && PrelimOf(lines, b)
    ensures a == b
  {
    MarkersUnique(lines, a.markers, b.markers);
    Visualisations.HeadersUnique(lines, Visualisations.DataMarkers(a.markers), a.dates, a.periodicities, b.dates, b.periodicities);
  }

  /** Both reads of __post_init__ can be made of the file. */
  ghost predicate Loads(lines: Lines)
  {
    exists info, meta :: ContentsOf(lines, info, meta)
  }

  /** Once the preliminary information is read, the file loads exactly when the metadata above its first block can be read. */
  lemma LoadsAt(lines: Lines, info: Info)
    requires PrelimOf(lines, info)
    ensures Loads(lines) <==> |info.markers| > 0 && exists m :: Visualisations.MetaOf(lines, info.markers[0].end, m)
  {
    if Loads(lines) {
      var other, meta :| ContentsOf(lines, other, meta);
      PrelimUnique(lines, info, other);
    }
    if |info.markers| > 0 && exists m :: Visualisations.MetaOf(lines, info.markers[0].end, m) {
      var meta :| Visualisations.MetaOf(lines, info.markers[0].end, meta);
      assert ContentsOf(lines, info, meta);
    }
  }

  /** What __post_init__ fills in: the name, the preliminary information and the stored metadata. */
  datatype Loaded = Loaded(name: string, info: Info, meta: map<string, MetaValue>)

  /** What __post_init__ learns about the file at `filepath`. */
  predicate LoadedOf(filepath: string, lines: Lines, l: Loaded)
  {
    && l.name == Name(filepath)
    && ContentsOf(lines, l.info, Unstored(l.meta)) && l.meta == Stored(Unstored(l.meta))
  }

  /**
   * The name, then both reads of __post_init__, the preliminary read first.
   * The modified flag it determines is only printed, so it is not kept.
   */
  method ReadAll(filepath: string, lines: Lines) returns (r: Result<Loaded, Fault>)
    ensures r.Ok? <==> Loads(lines)
    ensures r.Ok? ==> LoadedOf(filepath, lines, r.value)
  {
    var name := Name(filepath);
    var prelim := PrelimRead(lines);
    if prelim.Err? {
      return Err(prelim.error);
    }
    LoadsAt(lines, prelim.value);
    var m := ReadMeta(lines, prelim.value.markers);
    if m.Err? {
      return Err(m.error);
    }
    StoredRoundTrip(m.value);
    assert ContentsOf(lines, prelim.value, m.value);
    return Ok(Loaded(name, prelim.value, Stored(m.value)));
  }

  // ----------------------------------------------------------- visualisation

  /**
   * The name a visualisation takes: its file name up to the first '.'.
   */
  function Name(filepath: string): (r: string)
    ensures '.' !in r
    ensures StartsWith(BaseName(filepath), r)
    ensures |r| < |BaseName(filepath)| ==> BaseName(filepath)[|r|] == '.'
  {
    SplitFirst(BaseName(filepath), '.');
    Split(BaseName(filepath), '.')[0]
  }

  /** The first piece of a split is a prefix of the text that ends at the first separator, or at the end. */
  lemma {:induction false} SplitFirst(s: string, sep: char)
    ensures StartsWith(s, Split(s, sep)[0])
    ensures |Split(s, sep)[0]| < |s| ==> s[|Split(s, sep)[0]|] == sep
    decreases |s|
  {
    if |s| > 0 && s[0] != sep {
      SplitFirst(s[1..], sep);
    }
  }

  /** A visualisation file as the first reader holds it. */
  class Visualisation {
    const filepath: string
    var name: string
    var info: Info
    var meta: map<string, MetaValue>

    constructor (filepath: string)
      ensures this.filepath == filepath && name == "" && info == Info([], [], [], []) && meta == map[]
    {
      this.filepath := filepath;
      name := "";
      info := Info([], [], [], []);
      meta := map[];
    }

    /** The fields __post_init__ fills in. */
    function Fields(): Loaded
      reads this
    {
      Loaded(name, info, meta)
    }

    /** Setting the fields __post_init__ fills in. */
    method Fill(l: Loaded)
      modifies this`name, this`info, this`meta
      ensures Fields() == l
    {
      name, info, meta := l.name, l.info, l.meta;
    }

    /**
     * __post_init__: the file must pass the csv check (whose outcome is passed
     * in), then the name is taken from the path, and the preliminary read
     * and the metadata read follow, the metadata stored under read_meta's
     * keys.
     */
    method PostInit(lines: Lines, csvCheck: Outcome<Fault>) returns (r: Outcome<Fault>)
      modifies this`name, this`info, this`meta
      ensures csvCheck.Fail? ==> r == csvCheck
      ensures csvCheck.Pass? ==> (r.Pass? <==> Loads(lines))
      ensures r.Pass? ==> LoadedOf(filepath, lines, Fields())
    {
      if csvCheck.Fail? {
        return csvCheck;
      }
      var read := ReadAll(filepath, lines);
      if read.Err? {
        return Fail(read.error);
      }
      Fill(read.value);
      return Pass;
    }
  }

  /** The registry of every visualisation opened, by name. */
  class DataRegistry {
    var register: map<string, Visualisation>

    constructor ()
      ensures register == map[]
    {
      register := map[];
    }

    /**
     * open: the file is read and registered under its name, replacing any
     * visualisation opened earlier under the same name; a file that fails to
     * read leaves the registry as it was.
     */
    method Open(file: string, lines: Lines, csvCheck: Outcome<Fault>) returns (r: Outcome<Fault>)
      modifies this`register
      ensures csvCheck.Fail? ==> r == csvCheck
      ensures csvCheck.Pass? ==> (r.Pass? <==> Loads(lines))
      ensures r.Fail? ==> register == old(register)
      ensures r.Pass? ==>
                && Name(file) in register && register == old(register)[Name(file) := register[Name(file)]]
                && fresh(register[Name(file)])
                && register[Name(file)].filepath == file
                && LoadedOf(file, lines, register[Name(file)].Fields())
    {
      var vis := new Visualisation(file);
      r := vis.PostInit(lines, csvCheck);
      if r.Pass? {
        register := register[vis.name := vis];
      }
    }
  }
}
