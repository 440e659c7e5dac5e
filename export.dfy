/**
 * Exporting one comparison to a workbook: which periodicities are written,
 * the date-range filter on the columns, column dates rendered back to their
 * header form, the numeric and reason tables recombined, the per-row
 * "Missing Data" label, the all-zero series dropped, the metadata key order,
 * and the loop that adds the sheets and keeps note of whether anything was
 * written.
 */
module Exports {
  import opened Wrappers
  import opened Text
  import opened Tables
  import opened Visualisations
  import opened Comparisons

  /** The export options the program reads (the analysis columns are not part of this model). */
  datatype Options = Options(
    preSheet: bool,
    postSheet: bool,
    metaSheet: bool,
    missingData: bool,
    dateFilter: bool,
    dateFrom: Date,
    dateTo: Date,
    skipNoDiffs: bool,
    exclZeroSeries: bool)

  /** The options as first shown: metadata sheet, missing-data column and skipping on; `today` is the default end date. */
  function DefaultOptions(today: Date): (o: Options)
    ensures o.metaSheet && o.missingData && o.skipNoDiffs
    ensures !o.preSheet && !o.postSheet && !o.dateFilter && !o.exclZeroSeries
    ensures o.dateFrom == Date(1997, 1, 1) && o.dateTo == today
  {
    Options(false, false, true, true, false, Date(1997, 1, 1), today, true, false)
  }

  /** should_skip: the whole visualisation is skipped when it has no differences and skipping is on. */
  function ShouldSkip(differences: bool, options: Options): (skip: bool)
  {
    !differences && options.skipNoDiffs
  }

  // ------------------------------------------------------------ date filter

  predicate InRange(c: Date, from: Date, to: Date)
  {
    NotAfter(from, c) && NotAfter(c, to)
  }

  /** The columns from `from` to `to` inclusive, in their original order. */
  function FilterDates(cols: seq<Date>, from: Date, to: Date): (r: seq<Date>)
    ensures |r| <= |cols|
    ensures forall c :: c in r <==> c in cols && InRange(c, from, to)
    ensures forall i :: 0 <= i < |r| ==> InRange(r[i], from, to)
  {
    if |cols| == 0 then []
    else (if InRange(cols[0], from, to) then [cols[0]] else []) + FilterDates(cols[1..], from, to)
  }

  /** Filtering keeps the columns' order: an increasing header stays increasing. */
  lemma {:induction false} FilterKeepsOrder(cols: seq<Date>, from: Date, to: Date)
    requires Increasing(cols)
    ensures Increasing(FilterDates(cols, from, to))
  {
    if |cols| > 0 {
      FilterKeepsOrder(cols[1..], from, to);
      var rest := FilterDates(cols[1..], from, to);
      forall j | 0 <= j < |rest|
        ensures Before(cols[0], rest[j])
      {
        assert rest[j] in cols[1..];
      }
    }
  }

  /** Filtering twice is filtering once. */
  lemma {:induction false} FilterDatesIdempotent(cols: seq<Date>, from: Date, to: Date)
    ensures FilterDates(FilterDates(cols, from, to), from, to) == FilterDates(cols, from, to)
  {
    if |cols| > 0 {
      FilterDatesIdempotent(cols[1..], from, to);
      var rest := FilterDates(cols[1..], from, to);
      if InRange(cols[0], from, to) {
        assert ([cols[0]] + rest)[1..] == rest;
      } else {
        assert FilterDates(cols, from, to) == rest;
      }
    }
  }

  /** _apply_date_filter on a frame: the columns outside the range go, with their cells. */
  function FilterFrame<V>(f: Frame<Date, V>, from: Date, to: Date): (r: Frame<Date, V>)
    ensures r.rows == f.rows && r.cols == FilterDates(f.cols, from, to)
    ensures forall cell :: cell in r.cells <==> cell in f.cells && cell.1 in f.cols && InRange(cell.1, from, to)
    ensures forall cell :: cell in r.cells ==> r.cells[cell] == f.cells[cell]
  {
    var cols := FilterDates(f.cols, from, to);
    Frame(f.rows, cols, map cell | cell in f.cells && cell.1 in cols :: f.cells[cell])
  }

  lemma FilterFrameIdempotent<V>(f: Frame<Date, V>, from: Date, to: Date)
    ensures FilterFrame(FilterFrame(f, from, to), from, to) == FilterFrame(f, from, to)
  {
    var once := FilterFrame(f, from, to);
    var twice := FilterFrame(once, from, to);
    FilterDatesIdempotent(f.cols, from, to);
    assert twice.cells == once.cells;
  }

  // --------------------------------------------------------- column headers

  /** The four digits `%Y` writes for a year pandas can hold. */
  function YearText(y: int): string
  {
    if y < 0 then NatToString(0) else NatToString(y)
  }

  /**
   * _convert_columns on one column: `%Y` for annual data, the quarter
   * `YYYYQn` for quarterly data and `%Y%b` for monthly data.
   */
  function Render(per: Periodicity, d: Date): (r: string)
  {
    match per
    case Annual => YearText(d.year)
    case Quarterly => YearText(d.year) + "Q" + [DigitChar(if 1 <= d.month <= 12 then (d.month - 1) / 3 + 1 else 0)]
    case Monthly => YearText(d.year) + (if 1 <= d.month <= 12 then MonthNames[d.month - 1] else "")
  }

  /** A column header in the form the program reads back, one per column. */
  function Header(per: Periodicity, cols: seq<Date>): (r: seq<string>)
    ensures |r| == |cols| && forall i :: 0 <= i < |cols| ==> r[i] == Render(per, cols[i])
  {
    seq(|cols|, i requires 0 <= i < |cols| => Render(per, cols[i]))
  }

  /** The first day of a period of `per`, as the reader produces it. */
  predicate PeriodStart(per: Periodicity, d: Date)
  {
    d.day == 1 && 1 <= d.month <= 12 && InTimestampRange(d)
    && (per.Annual? ==> d.month == 1)
    && (per.Quarterly? ==> d.month % 3 == 1)
  }

  lemma YearDigits(d: Date)
    requires InTimestampRange(d)
    ensures |YearText(d.year)| == 4 && AllDigits(YearText(d.year)) && ParseNat(YearText(d.year)) == d.year
  {
    NatToStringLength(d.year);
  }

  /** The month abbreviations with their letters lower-cased. */
  const FoldedMonthNames: seq<string> := ["jan", "feb", "mar", "apr", "may", "jun", "jul", "aug", "sep", "oct", "nov", "dec"]

  lemma FoldedName(i: nat)
    requires i < 12
    ensures |MonthNames[i]| == 3 && forall j :: 0 <= j < 3 ==> Lower(MonthNames[i][j]) == FoldedMonthNames[i][j]
  {
  }

  /** No two month abbreviations are the same in any letter case. */
  lemma DistinctMonths(i: nat, k: nat)
    requires i < 12 && k < 12 && i != k
    ensures !SameIgnoringCase(MonthNames[i], MonthNames[k])
  {
    FoldedName(i);
    FoldedName(k);
    assert FoldedMonthNames[i] != FoldedMonthNames[k];
  }

  /** Each abbreviation reads back as its own month. */
  lemma MonthNamed(m: nat)
    requires 1 <= m <= 12
    ensures MonthOf(MonthNames[m - 1]) == Some(m)
  {
    var s := MonthNames[m - 1];
    forall k | 0 <= k < 12 && k != m - 1
      ensures !SameIgnoringCase(s, MonthNames[k])
    {
      DistinctMonths(m - 1, k);
    }
    assert SameIgnoringCase(s, s);
  }

  /** A rendered column header reads back as the date it came from. */
  lemma RenderParses(per: Periodicity, d: Date)
    requires PeriodStart(per, d)
    ensures ParseDate(per, Render(per, d)) == Some(d)
  {
    YearDigits(d);
    match per
    case Annual => AnnualParses(d);
    case Quarterly => QuarterParses(d);
    case Monthly => MonthParses(d);
  }

  lemma AnnualParses(d: Date)
    requires PeriodStart(Annual, d)
    requires |YearText(d.year)| == 4 && AllDigits(YearText(d.year)) && ParseNat(YearText(d.year)) == d.year
    ensures ParseDate(Annual, Render(Annual, d)) == Some(d)
  {
    var tok := Render(Annual, d);
    assert tok[..4] == tok;
  }

  lemma QuarterParses(d: Date)
    requires PeriodStart(Quarterly, d)
    requires |YearText(d.year)| == 4 && AllDigits(YearText(d.year)) && ParseNat(YearText(d.year)) == d.year
    ensures ParseDate(Quarterly, Render(Quarterly, d)) == Some(d)
  {
    var y := YearText(d.year);
    var q := (d.month - 1) / 3 + 1;
    assert 1 <= q <= 4 && 3 * (q - 1) + 1 == d.month by {
      assert d.month == 1 || d.month == 4 || d.month == 7 || d.month == 10;
    }
    var tok := Render(Quarterly, d);
    assert tok == y + "Q" + [DigitChar(q)];
    assert tok[..4] == y && tok[4] == 'Q' && tok[5] == DigitChar(q);
    assert DigitValue(tok[5]) == q;
  }

  lemma MonthParses(d: Date)
    requires PeriodStart(Monthly, d)
    requires |YearText(d.year)| == 4 && AllDigits(YearText(d.year)) && ParseNat(YearText(d.year)) == d.year
    ensures ParseDate(Monthly, Render(Monthly, d)) == Some(d)
  {
    var y := YearText(d.year);
    var tok := Render(Monthly, d);
    assert tok == y + MonthNames[d.month - 1];
    assert tok[..4] == y && tok[4..] == MonthNames[d.month - 1];
    MonthNamed(d.month);
  }

  /** Four digits that start with 0 stand for a number below 1000. */
  lemma LeadingZero(y: string)
    requires |y| == 4 && AllDigits(y) && y[0] == '0'
    ensures ParseNat(y) < 1000
  {
    assert y[..3][..2] == y[..2] && y[..2][..1] == y[..1] && y[..1][..0] == [];
    assert ParseNat(y[..1]) == 0;
    assert ParseNat(y[..2]) == DigitValue(y[1]);
    assert ParseNat(y[..3]) == ParseNat(y[..2]) * 10 + DigitValue(y[2]);
    assert ParseNat(y) == ParseNat(y[..3]) * 10 + DigitValue(y[3]);
  }

  /** The year of a header that converts is written without a leading zero. */
  lemma YearRenders(per: Periodicity, tok: string)
    requires ParseDate(per, tok).Some?
    ensures YearText(ParseDate(per, tok).value.year) == tok[..4]
  {
    var y := tok[..4];
    if y[0] == '0' {
      LeadingZero(y);
    }
    ParseNatToString(y);
  }

  /** A header in the form the program writes renders back to itself once read. */
  lemma ParseRenders(per: Periodicity, tok: string)
    requires ParseDate(per, tok).Some?
    requires per.Monthly? ==> tok[4..] in MonthNames
    ensures Render(per, ParseDate(per, tok).value) == tok
  {
    YearRenders(per, tok);
    match per
    case Annual =>
      assert tok == tok[..4];
    case Quarterly =>
      QuarterRenders(tok);
    case Monthly =>
      MonthRenders(tok);
  }

  lemma QuarterRenders(tok: string)
    requires ParseDate(Quarterly, tok).Some?
    requires YearText(ParseDate(Quarterly, tok).value.year) == tok[..4]
    ensures Render(Quarterly, ParseDate(Quarterly, tok).value) == tok
  {
    var d := ParseDate(Quarterly, tok).value;
    var q := DigitValue(tok[5]);
    assert (d.month - 1) / 3 + 1 == q;
    assert DigitChar(q) == tok[5];
    assert tok == tok[..4] + "Q" + [tok[5]];
  }

  lemma MonthRenders(tok: string)
    requires ParseDate(Monthly, tok).Some? && tok[4..] in MonthNames
    requires YearText(ParseDate(Monthly, tok).value.year) == tok[..4]
    ensures Render(Monthly, ParseDate(Monthly, tok).value) == tok
  {
    var k :| 0 <= k < 12 && MonthNames[k] == tok[4..];
    MonthNamed(k + 1);
    assert tok == tok[..4] + tok[4..];
  }

  /** Different period starts have different headers. */
  lemma RenderInjective(per: Periodicity, a: Date, b: Date)
    requires PeriodStart(per, a) && PeriodStart(per, b) && Render(per, a) == Render(per, b)
    ensures a == b
  {
    RenderParses(per, a);
    RenderParses(per, b);
  }

  // ------------------------------------------------------------ the tables

  /** _read_vis: a stored visualisation frame with its missing values written as ".". */
  function ReadVis(t: Table): (r: Frame<Date, Entry>)
    ensures r.rows == t.rows && r.cols == t.cols && r.cells.Keys == t.cells.Keys
    ensures forall cell :: cell in r.cells ==> r.cells[cell] != NaN && (r.cells[cell].Number? <==> t.cells[cell].Some?)
    ensures forall cell :: cell in r.cells && t.cells[cell].Some? ==> r.cells[cell] == Number(t.cells[cell].value)
  {
    Frame(t.rows, t.cols, map cell | cell in t.cells :: if t.cells[cell].Some? then Number(t.cells[cell].value) else Text("."))
  }

  /** _process_vis: the date filter, when it is on (the columns are rendered when the sheet is written). */
  function ProcessVis<V>(f: Frame<Date, V>, options: Options): (r: Frame<Date, V>)
    ensures options.dateFilter ==> r == FilterFrame(f, options.dateFrom, options.dateTo)
    ensures !options.dateFilter ==> r == f
  {
    if options.dateFilter then FilterFrame(f, options.dateFrom, options.dateTo) else f
  }

  /**
   * `diff[diff.isna()] = nans`: every cell keeps its number where the stored
   * difference has one and takes the stored reason where it does not.
   */
  function Recombine(diff: Table, nans: Frame<Date, string>): (r: Frame<Date, Entry>)
    ensures r.rows == diff.rows && r.cols == diff.cols && r.cells.Keys == diff.cells.Keys
    ensures forall cell :: cell in r.cells ==> (r.cells[cell].Number? <==> diff.cells[cell].Some?)
    ensures forall cell :: cell in r.cells && diff.cells[cell].Some? ==> r.cells[cell] == Number(diff.cells[cell].value)
    ensures forall cell :: cell in r.cells && diff.cells[cell].None? && cell in nans.cells ==> r.cells[cell] == Text(nans.cells[cell])
  {
    Frame(diff.rows, diff.cols,
          map cell | cell in diff.cells ::
            if diff.cells[cell].Some? then Number(diff.cells[cell].value)
            else if cell in nans.cells then Text(nans.cells[cell])
            else NaN)
  }

  /**
   * Recombining what a comparison stored gives, at each cell, post minus pre
   * where both have a value and the reason the value is missing otherwise.
   */
  lemma RecombinedComparison(prePosition: string, postPosition: string, pre: Table, post: Table, k: Key, c: Date)
    requires (k, c) in Difference(pre, post).cells
    ensures var r := Recombine(Difference(pre, post), Reasons(prePosition, postPosition, pre, post));
            (k, c) in r.cells
            && (At(pre, k, c).Some? && At(post, k, c).Some? ==> r.cells[(k, c)] == Number(At(post, k, c).value - At(pre, k, c).value))
            && (At(pre, k, c).None? || At(post, k, c).None? ==> r.cells[(k, c)] == Text(Reason(prePosition, postPosition, pre, post, k, c)))
  {
    ReasonsAtMissingCells(prePosition, postPosition, pre, post, k, c);
  }

  /** _has_differences: `assert_frame_equal` with `check_like`, which ignores the order of rows and columns. */
  function HasDifferences(a: Frame<Date, Entry>, b: Frame<Date, Entry>): (r: bool)
  {
    !(a.rows == b.rows && Elems(a.cols) == Elems(b.cols) && a.cells == b.cells)
  }

  /**
   * The re-check after the date filter finds no difference exactly when pre
   * and post have the same rows, the same dates within the range, and the
   * same cells at those dates, whatever lies outside the range and in
   * whichever order the columns come.
   */
  lemma FilteredSameIff(pre: Frame<Date, Entry>, post: Frame<Date, Entry>, from: Date, to: Date)
    ensures !HasDifferences(FilterFrame(pre, from, to), FilterFrame(post, from, to))
            <==> && pre.rows == post.rows
                 && (forall c :: c in pre.cols && InRange(c, from, to) <==> c in post.cols && InRange(c, from, to))
                 && (forall k, c {:trigger (k, c) in pre.cells} {:trigger (k, c) in post.cells} ::
                       c in pre.cols && c in post.cols && InRange(c, from, to) ==>
                         ((k, c) in pre.cells <==> (k, c) in post.cells)
                         && ((k, c) in pre.cells ==> pre.cells[(k, c)] == post.cells[(k, c)]))
  {
    var a, b := FilterFrame(pre, from, to), FilterFrame(post, from, to);
    if !HasDifferences(a, b) {
      forall c | c in pre.cols && InRange(c, from, to)
        ensures c in post.cols
      {
        assert c in Elems(a.cols);
      }
      forall c | c in post.cols && InRange(c, from, to)
        ensures c in pre.cols
      {
        assert c in Elems(b.cols);
      }
      forall k, c | c in pre.cols && c in post.cols && InRange(c, from, to) && (k, c) in pre.cells
        ensures (k, c) in post.cells && pre.cells[(k, c)] == post.cells[(k, c)]
      {
        assert (k, c) in a.cells;
      }
      forall k, c | c in pre.cols && c in post.cols && InRange(c, from, to) && (k, c) in post.cells
        ensures (k, c) in pre.cells
      {
        assert (k, c) in b.cells;
      }
    } else if && pre.rows == post.rows
              && (forall c :: c in pre.cols && InRange(c, from, to) <==> c in post.cols && InRange(c, from, to))
              && (forall k, c {:trigger (k, c) in pre.cells} {:trigger (k, c) in post.cells} ::
                    c in pre.cols && c in post.cols && InRange(c, from, to) ==>
                      ((k, c) in pre.cells <==> (k, c) in post.cells)
                      && ((k, c) in pre.cells ==> pre.cells[(k, c)] == post.cells[(k, c)])) {
      assert Elems(a.cols) == Elems(b.cols);
      forall cell | cell in a.cells
        ensures cell in b.cells && a.cells[cell] == b.cells[cell]
      {
        assert (cell.0, cell.1) in pre.cells;
      }
      forall cell | cell in b.cells
        ensures cell in a.cells
      {
        assert (cell.0, cell.1) in post.cells;
      }
      SameEntries(a.cells, b.cells);
      assert false;
    }
  }

  // ---------------------------------------------------- the Missing Data label

  /**
   * Whether a cell's text is `text`: `str.match` as the program uses it
   * tests for a prefix; `exact` tests for the whole string.
   */
  predicate Says(e: Entry, text: string, exact: bool)
  {
    e.Text? && if exact then e.s == text else StartsWith(e.s, text)
  }

  /** Whether some cell of row `k` says `text`. */
  predicate RowSays(f: Frame<Date, Entry>, k: Key, text: string, exact: bool)
  {
    exists cell :: cell in f.cells && cell.0 == k && Says(f.cells[cell], text, exact)
  }

  /** The five assignments of the "Missing Data" column, in the order the code makes them. */
  datatype LabelStep = MissingPre | MissingPost | SeriesPre | SeriesPost | MissingBoth

  const LabelSteps: seq<LabelStep> := [MissingPre, MissingPost, SeriesPre, SeriesPost, MissingBoth]

  /** The rows an assignment selects. */
  predicate Selects(s: LabelStep, f: Frame<Date, Entry>, k: Key, pre: string, post: string, exact: bool)
  {
    match s
    case MissingPre => RowSays(f, k, "Missing in " + pre, exact)
    case MissingPost => RowSays(f, k, "Missing in " + post, exact)
    case SeriesPre => RowSays(f, k, "Series not in " + pre, exact)
    case SeriesPost => RowSays(f, k, "Series not in " + post, exact)
    case MissingBoth => RowSays(f, k, "Missing in " + pre, exact) && RowSays(f, k, "Missing in " + post, exact)
  }

  function StepLabel(s: LabelStep, pre: string, post: string): string
  {
    match s
    case MissingPre => pre
    case MissingPost => post
    case SeriesPre => pre
    case SeriesPost => post
    case MissingBoth => "BOTH"
  }

  /** A row's label after the first `n` assignments; 'None' before any. */
  function LabelAfter(n: nat, f: Frame<Date, Entry>, k: Key, pre: string, post: string, exact: bool): string
    requires n <= |LabelSteps|
  {
    if n == 0 then "None"
    else if Selects(LabelSteps[n - 1], f, k, pre, post, exact) then StepLabel(LabelSteps[n - 1], pre, post)
    else LabelAfter(n - 1, f, k, pre, post, exact)
  }

  /**
   * A row's "Missing Data" label by precedence: 'BOTH' for a row missing a
   * value on each side, then a series one side lacks (post before pre), then
   * a value one side lacks (post before pre), and otherwise 'None'.
   */
  function RowLabel(f: Frame<Date, Entry>, k: Key, pre: string, post: string, exact: bool): string
  {
    var missingPre := RowSays(f, k, "Missing in " + pre, exact);
    var missingPost := RowSays(f, k, "Missing in " + post, exact);
    if missingPre && missingPost then "BOTH"
    else if RowSays(f, k, "Series not in " + post, exact) then post
    else if RowSays(f, k, "Series not in " + pre, exact) then pre
    else if missingPost then post
    else if missingPre then pre
    else "None"
  }

  /** The last of the five assignments that selects a row decides its label. */
  lemma LastLabelWins(f: Frame<Date, Entry>, k: Key, pre: string, post: string, exact: bool)
    ensures LabelAfter(|LabelSteps|, f, k, pre, post, exact) == RowLabel(f, k, pre, post, exact)
  {
    var steps := seq(6, n requires 0 <= n <= 5 => LabelAfter(n, f, k, pre, post, exact));
    assert steps[0] == "None";
    assert steps[1] == if Selects(MissingPre, f, k, pre, post, exact) then pre else steps[0];
    assert steps[2] == if Selects(MissingPost, f, k, pre, post, exact) then post else steps[1];
    assert steps[3] == if Selects(SeriesPre, f, k, pre, post, exact) then pre else steps[2];
    assert steps[4] == if Selects(SeriesPost, f, k, pre, post, exact) then post else steps[3];
    assert steps[5] == if Selects(MissingBoth, f, k, pre, post, exact) then "BOTH" else steps[4];
  }

  /** A row's label, 'None' for a row the labels do not cover. */
  function LabelOf(labels: map<Key, string>, k: Key): string
  {
    if k in labels then labels[k] else "None"
  }

  /** A row label with its "Missing Data" label appended as a last level. */
  function Tagged(labels: map<Key, string>, k: Key): (r: Key)
    ensures |r| == |k| + 1 && r[|k|] == Some(LabelOf(labels, k))
  {
    k + [Some(LabelOf(labels, k))]
  }

  /** The row label a tagged row label came from. */
  function Untagged(k: Key): Key
  {
    if |k| == 0 then k else k[..|k| - 1]
  }

  lemma TaggedInverse(labels: map<Key, string>, k: Key)
    ensures Untagged(Tagged(labels, k)) == k
  {
    assert Tagged(labels, k)[..|k|] == k;
  }

  function TaggedCell(labels: map<Key, string>, cell: (Key, Date)): (r: (Key, Date))
    ensures r.1 == cell.1 && |r.0| >= 1
  {
    (Tagged(labels, cell.0), cell.1)
  }

  function UntaggedCell(cell: (Key, Date)): (Key, Date)
  {
    (Untagged(cell.0), cell.1)
  }

  lemma TaggedCellInverse(labels: map<Key, string>, cell: (Key, Date))
    ensures UntaggedCell(TaggedCell(labels, cell)) == cell
  {
    TaggedInverse(labels, cell.0);
  }

  /** The rows, each with its label appended: a row is there exactly when it is a tagged source row. */
  function TagRows(rows: set<Key>, labels: map<Key, string>): (r: set<Key>)
    ensures forall k {:trigger k in r} :: k in r <==> Untagged(k) in rows && Tagged(labels, Untagged(k)) == k
  {
    var r := set k | k in rows :: Tagged(labels, k);
    forall k | k in r
      ensures Untagged(k) in rows && Tagged(labels, Untagged(k)) == k
    {
      var k0 :| k0 in rows && k == Tagged(labels, k0);
      TaggedInverse(labels, k0);
    }
    r
  }

  /** The cells, each moved to its tagged row with its value. */
  function TagCells(cells: map<(Key, Date), Entry>, labels: map<Key, string>): (r: map<(Key, Date), Entry>)
    ensures forall cell {:trigger cell in r} :: cell in r <==> UntaggedCell(cell) in cells && TaggedCell(labels, UntaggedCell(cell)) == cell
    ensures forall cell {:trigger r[cell]} :: cell in r ==> r[cell] == cells[UntaggedCell(cell)]
  {
    assert forall a, b :: a in cells && b in cells && TaggedCell(labels, a) == TaggedCell(labels, b) ==> a == b by {
      forall a, b | a in cells && b in cells && TaggedCell(labels, a) == TaggedCell(labels, b)
        ensures a == b
      {
        TaggedCellInverse(labels, a);
        TaggedCellInverse(labels, b);
      }
    }
    var r := map cell | cell in cells :: TaggedCell(labels, cell) := cells[cell];
    forall cell | cell in r
      ensures UntaggedCell(cell) in cells && TaggedCell(labels, UntaggedCell(cell)) == cell
      ensures r[cell] == cells[UntaggedCell(cell)]
    {
      var c0 :| c0 in cells && cell == TaggedCell(labels, c0);
      TaggedCellInverse(labels, c0);
    }
    r
  }

  /**
   * The frame with the "Missing Data" labels appended to the row labels as
   * a last level; the dates stay as they are.
   */
  function AppendLabels(f: Frame<Date, Entry>, labels: map<Key, string>): (r: Frame<Date, Entry>)
    ensures r.cols == f.cols
  {
    Frame(TagRows(f.rows, labels), f.cols, TagCells(f.cells, labels))
  }

  /** The labels the program gives the rows, matching cell texts by prefix when `exact` is false. */
  function Labels(f: Frame<Date, Entry>, pre: string, post: string, exact: bool): (labels: map<Key, string>)
    ensures labels.Keys == f.rows
    ensures forall k :: k in labels ==> labels[k] == RowLabel(f, k, pre, post, exact)
  {
    map k | k in f.rows :: RowLabel(f, k, pre, post, exact)
  }

  /** One assignment of the "Missing Data" column: the selected rows take the step's label. */
  function Relabel(labels: map<Key, string>, selected: set<Key>, named: string): (r: map<Key, string>)
    ensures r.Keys == labels.Keys
    ensures forall k :: k in r ==> r[k] == if k in selected then named else labels[k]
  {
    map k | k in labels :: if k in selected then named else labels[k]
  }

  /** The rows a step's selector picks. */
  function Selected(s: LabelStep, f: Frame<Date, Entry>, pre: string, post: string, exact: bool): set<Key>
  {
    set k | k in f.rows && Selects(s, f, k, pre, post, exact)
  }

  lemma RelabelStep(f: Frame<Date, Entry>, pre: string, post: string, exact: bool, n: nat, labels: map<Key, string>)
    requires n < |LabelSteps|
    requires labels.Keys == f.rows && forall k :: k in labels ==> labels[k] == LabelAfter(n, f, k, pre, post, exact)
    ensures var s := LabelSteps[n];
            var r := Relabel(labels, Selected(s, f, pre, post, exact), StepLabel(s, pre, post));
            r.Keys == f.rows && forall k :: k in r ==> r[k] == LabelAfter(n + 1, f, k, pre, post, exact)
  {
  }

  /** Label maps with the same rows and the same label at every row are equal. */
  lemma SameLabels(a: map<Key, string>, b: map<Key, string>)
    requires forall k :: k in a <==> k in b
    requires forall k :: k in a ==> a[k] == b[k]
    ensures a == b
  {
  }

  /**
   * _add_missing_data_col: a 'None' label for every row, overwritten by the
   * five assignments in turn, then appended to the row labels.
   */
  method AddMissingDataCol(f: Frame<Date, Entry>, pre: string, post: string, exact: bool) returns (r: Frame<Date, Entry>)
    ensures r == AppendLabels(f, Labels(f, pre, post, exact))
  {
    var labels := map k | k in f.rows :: "None";
    for n := 0 to |LabelSteps|
      invariant labels.Keys == f.rows
      invariant forall k :: k in labels ==> labels[k] == LabelAfter(n, f, k, pre, post, exact)
    {
      var step := LabelSteps[n];
      RelabelStep(f, pre, post, exact, n, labels);
      labels := Relabel(labels, Selected(step, f, pre, post, exact), StepLabel(step, pre, post));
    }
    forall k | k in labels
      ensures labels[k] == Labels(f, pre, post, exact)[k]
    {
      LastLabelWins(f, k, pre, post, exact);
    }
    SameLabels(labels, Labels(f, pre, post, exact));
    r := AppendLabels(f, labels);
  }

  /** A row labelled with a position, under exact matching, has a cell naming that position. */
  lemma LabelNamesACell(f: Frame<Date, Entry>, k: Key, pre: string, post: string, named: string)
    requires named == RowLabel(f, k, pre, post, true) && named != "None" && named != "BOTH"
    ensures named == pre || named == post
    ensures exists cell :: cell in f.cells && cell.0 == k
                           && f.cells[cell] in {Text("Missing in " + named), Text("Series not in " + named)}
  {
  }

  /**
   * Prefix matching mislabels a row: with positions "A" and "AB", a row
   * missing only a post value ("Missing in AB") also counts as missing a pre
   * value, so it is labelled 'BOTH' instead of "AB".
   */
  lemma PrefixLabelsBoth()
    ensures var f := Frame({[]}, [Date(2020, 1, 1)], map[([], Date(2020, 1, 1)) := Text("Missing in AB")]);
            RowLabel(f, [], "A", "AB", false) == "BOTH" && RowLabel(f, [], "A", "AB", true) == "AB"
  {
    var f := Frame({[]}, [Date(2020, 1, 1)], map[([], Date(2020, 1, 1)) := Text("Missing in AB")]);
    var cell := ([], Date(2020, 1, 1));
    assert StartsWith("Missing in AB", "Missing in A");
    assert Says(f.cells[cell], "Missing in A", false) && Says(f.cells[cell], "Missing in AB", false);
    assert Says(f.cells[cell], "Missing in AB", true);
    assert !RowSays(f, [], "Missing in A", true) by {
      assert "Missing in AB" != "Missing in A";
    }
    assert !RowSays(f, [], "Series not in AB", true) by {
      assert "Missing in AB" != "Series not in AB";
    }
    assert !RowSays(f, [], "Series not in A", true) by {
      assert "Missing in AB" != "Series not in A";
    }
  }

  // ------------------------------------------------------------ zero series

  /** A cell `_drop_zero_series` counts as showing no difference: a zero, or "." (missing on both sides). */
  predicate IsZero(e: Entry)
  {
    e == Number(0) || e == Text(".")
  }

  /**
   * A row whose every column shows no difference; a cell the frame lacks is
   * pandas' NaN, which is not zero, and a frame with no columns makes every
   * row qualify, as `all` does.
   */
  predicate ZeroRow(f: Frame<Date, Entry>, k: Key)
  {
    forall c :: c in f.cols ==> (k, c) in f.cells && IsZero(f.cells[(k, c)])
  }

  /** A row label without its last `extra` levels, the levels only the difference table has. */
  function Strip(k: Key, extra: nat): Key
  {
    if |k| >= extra then k[..|k| - extra] else k
  }

  /** The difference rows that show no difference. */
  function ZeroRows(diff: Frame<Date, Entry>): set<Key>
  {
    set k | k in diff.rows && ZeroRow(diff, k)
  }

  /** The series of pre and post whose difference row shows no difference. */
  function ZeroSeries(diff: Frame<Date, Entry>, extra: nat): set<Key>
  {
    set k | k in ZeroRows(diff) :: Strip(k, extra)
  }

  /** DataFrame.drop of the rows `gone`. */
  function DropRows<V>(f: Frame<Date, V>, gone: set<Key>): (r: Frame<Date, V>)
    ensures r.rows == f.rows - gone && r.cols == f.cols
    ensures forall cell :: cell in r.cells <==> cell in f.cells && cell.0 !in gone
    ensures forall cell :: cell in r.cells ==> r.cells[cell] == f.cells[cell]
  {
    Frame(f.rows - gone, f.cols, map cell | cell in f.cells && cell.0 !in gone :: f.cells[cell])
  }

  /**
   * _drop_zero_series: the difference rows that show no difference go, and
   * their series (the labels without the `extra` levels) go from pre and
   * post; a series pre or post lacks makes `drop` raise a KeyError.
   */
  function DropZeroSeries(pre: Frame<Date, Entry>, post: Frame<Date, Entry>, diff: Frame<Date, Entry>, extra: nat)
    : (r: Result<(Frame<Date, Entry>, Frame<Date, Entry>, Frame<Date, Entry>), Fault>)
    ensures r.Err? <==> !(ZeroSeries(diff, extra) <= pre.rows && ZeroSeries(diff, extra) <= post.rows)
    ensures r.Err? ==> r.error == Unexpected("KeyError")
  {
    var gone := ZeroSeries(diff, extra);
    if !(gone <= pre.rows) || !(gone <= post.rows) then Err(Unexpected("KeyError"))
    else Ok((DropRows(pre, gone), DropRows(post, gone), DropRows(diff, ZeroRows(diff))))
  }

  /**
   * What dropping the zero series keeps: every difference row that shows a
   * difference somewhere, with its cells, and no other; every pre and post
   * series except those of the dropped rows.
   */
  lemma DropZeroSeriesKeeps(pre: Frame<Date, Entry>, post: Frame<Date, Entry>, diff: Frame<Date, Entry>, extra: nat)
    requires DropZeroSeries(pre, post, diff, extra).Ok?
    ensures var (p, q, d) := DropZeroSeries(pre, post, diff, extra).value;
            && d.cols == diff.cols
            && (forall k :: k in d.rows <==> k in diff.rows && !ZeroRow(diff, k))
            && (forall k :: k in d.rows ==> exists c :: c in d.cols && ((k, c) !in d.cells || !IsZero(d.cells[(k, c)])))
            && (forall cell :: cell in diff.cells && cell.0 in d.rows ==> cell in d.cells)
            && (forall cell :: cell in d.cells ==> cell in diff.cells && d.cells[cell] == diff.cells[cell])
            && (forall k :: k in p.rows <==> k in pre.rows && k !in ZeroSeries(diff, extra))
            && (forall k :: k in q.rows <==> k in post.rows && k !in ZeroSeries(diff, extra))
            && (forall k :: k in diff.rows && ZeroRow(diff, k) ==> Strip(k, extra) !in p.rows && Strip(k, extra) !in q.rows)
  {
    var (p, q, d) := DropZeroSeries(pre, post, diff, extra).value;
    forall k | k in d.rows
      ensures exists c :: c in d.cols && ((k, c) !in d.cells || !IsZero(d.cells[(k, c)]))
    {
      assert !ZeroRow(diff, k);
      var c :| c in diff.cols && !((k, c) in diff.cells && IsZero(diff.cells[(k, c)]));
      assert c in d.cols;
    }
    forall k | k in diff.rows && ZeroRow(diff, k)
      ensures Strip(k, extra) in ZeroSeries(diff, extra)
    {
      assert k in ZeroRows(diff);
    }
  }

  /** Dropping the zero series a second time changes nothing. */
  lemma DropZeroSeriesIdempotent(pre: Frame<Date, Entry>, post: Frame<Date, Entry>, diff: Frame<Date, Entry>, extra: nat)
    requires DropZeroSeries(pre, post, diff, extra).Ok?
    ensures var (p, q, d) := DropZeroSeries(pre, post, diff, extra).value;
            DropZeroSeries(p, q, d, extra) == Ok((p, q, d))
  {
    var (p, q, d) := DropZeroSeries(pre, post, diff, extra).value;
    forall k | k in d.rows
      ensures !ZeroRow(d, k)
    {
      assert !ZeroRow(diff, k);
      var c :| c in diff.cols && !((k, c) in diff.cells && IsZero(diff.cells[(k, c)]));
      assert c in d.cols && !((k, c) in d.cells && IsZero(d.cells[(k, c)]));
    }
    assert ZeroRows(d) == {};
    assert ZeroSeries(d, extra) == {};
    assert DropRows(p, {}) == p;
    assert DropRows(q, {}) == q;
    assert DropRows(d, {}) == d;
  }

  // ---------------------------------------------- processing one periodicity

  /**
   * _process_comparison: the date filter on the difference and reason
   * tables, the two recombined, the "Missing Data" label when that option is
   * on (matching cell texts by prefix, as `str.match` does), and the zero series dropped when that
   * option is on (the label being the one extra level).
   */
  function ProcessComparison(pre: Frame<Date, Entry>, post: Frame<Date, Entry>, diff: Table, nans: Frame<Date, string>,
                             options: Options, prePosition: string, postPosition: string)
    : (r: Result<(Frame<Date, Entry>, Frame<Date, Entry>, Frame<Date, Entry>), Fault>)
    ensures r.Err? ==> options.exclZeroSeries && r.error == Unexpected("KeyError")
    ensures !options.exclZeroSeries ==> r.Ok? && r.value.0 == pre && r.value.1 == post
    ensures r.Ok? ==> r.value.2.cols == ProcessVis(diff, options).cols
  {
    var combined := Recombine(ProcessVis(diff, options), ProcessVis(nans, options));
    var labelled := if options.missingData then AppendLabels(combined, Labels(combined, prePosition, postPosition, false))
                    else combined;
    if options.exclZeroSeries then DropZeroSeries(pre, post, labelled, if options.missingData then 1 else 0)
    else Ok((pre, post, labelled))
  }

  /** Filtering the dates before recombining, as the program does, is filtering the recombined table. */
  lemma FilterThenRecombine(diff: Table, nans: Frame<Date, string>, from: Date, to: Date)
    requires nans.cols == diff.cols
    ensures Recombine(FilterFrame(diff, from, to), FilterFrame(nans, from, to)) == FilterFrame(Recombine(diff, nans), from, to)
  {
    var a := Recombine(FilterFrame(diff, from, to), FilterFrame(nans, from, to));
    var b := FilterFrame(Recombine(diff, nans), from, to);
    forall cell | cell in a.cells
      ensures cell in b.cells && a.cells[cell] == b.cells[cell]
    {
    }
    forall cell | cell in b.cells
      ensures cell in a.cells
    {
    }
    SameEntries(a.cells, b.cells);
  }

  /** Maps with the same keys and the same value at every key are equal. */
  lemma SameEntries<K, V>(a: map<K, V>, b: map<K, V>)
    requires forall x :: x in a <==> x in b
    requires forall x :: x in a ==> a[x] == b[x]
    ensures a == b
  {
  }

  // ------------------------------------------------------ the export loop

  /** What one export needs: the two positions, the visualisation, the options and what the comparison stored for it. */
  datatype Job = Job(pre: string, post: string, vis: string, options: Options, summary: Summary)

  /** Export.should_skip, on the stored summary of the comparison. */
  function Skip(job: Job): bool
  {
    ShouldSkip(job.summary.differences, job.options)
  }

  /**
   * The reads and checks of one periodicity of the export loop: `Ok(None)`
   * for a periodicity the loop skips, the three processed frames for one it
   * writes, and a KeyError for store contents the loop needs but lacks.
   */
  function Prepare(job: Job, frames: Frames, saved: map<Periodicity, SavedPeriod>, per: Periodicity)
    : (r: Result<Option<(Frame<Date, Entry>, Frame<Date, Entry>, Frame<Date, Entry>)>, Fault>)
    ensures r.Err? ==> r.error == Unexpected("KeyError")
    ensures job.options.skipNoDiffs && per in saved && !saved[per].different ==> r == Ok(None)
    ensures r == Ok(None) ==> job.options.skipNoDiffs
    ensures !job.options.skipNoDiffs && r.Ok? ==> r.value.Some?
  {
    var options := job.options;
    if options.skipNoDiffs && per !in saved then Err(Unexpected("KeyError"))
    else if options.skipNoDiffs && !saved[per].different then Ok(None)
    else if (job.pre, job.vis, per) !in frames || (job.post, job.vis, per) !in frames then Err(Unexpected("KeyError"))
    else
      var pre := ProcessVis(ReadVis(frames[(job.pre, job.vis, per)]), options);
      var post := ProcessVis(ReadVis(frames[(job.post, job.vis, per)]), options);
      if options.dateFilter && options.skipNoDiffs && !HasDifferences(pre, post) then Ok(None)
      else if per !in saved then Err(Unexpected("KeyError"))
      else match ProcessComparison(pre, post, saved[per].diff, saved[per].nans, options, job.pre, job.post)
        case Err(e) => Err(e)
        case Ok(t) => Ok(Some(t))
  }

  /** A sheet of the workbook: a table of one periodicity, or the metadata sheet. */
  datatype Sheet = Data(name: string, body: Frame<Date, Entry>, per: Periodicity) | Meta

  function SheetName(s: Sheet): string
  {
    if s.Data? then s.name else "MetaData"
  }

  /** Whether the workbook has a sheet of that name; Excel sheet names ignore letter case. */
  predicate Named(book: seq<Sheet>, name: string)
  {
    exists i :: 0 <= i < |book| && SameIgnoringCase(SheetName(book[i]), name)
  }

  /** The workbook so far, the `written` flag, and whether the export has raised. */
  datatype Progress = Progress(book: seq<Sheet>, written: bool, outcome: Outcome<Fault>)

  /**
   * _write_sheet or _write_meta adding a sheet: `_write_sheet` sets the
   * written flag before add_worksheet, which raises for a name the workbook
   * already has; after a failure nothing more happens.
   */
  function AddSheet(p: Progress, s: Sheet): (r: Progress)
    ensures p.outcome.Fail? ==> r == p
    ensures p.outcome.Pass? ==> r.written == (p.written || s.Data?)
    ensures p.outcome.Pass? ==> (r.outcome.Pass? <==> !Named(p.book, SheetName(s)))
    ensures r.outcome.Pass? ==> r.book == p.book + [s]
    ensures r.outcome.Fail? ==> r.book == p.book
  {
    if p.outcome.Fail? then p
    else
      var written := p.written || s.Data?;
      if Named(p.book, SheetName(s)) then Progress(p.book, written, Fail(Unexpected("DuplicateWorksheetName")))
      else Progress(p.book + [s], written, Pass)
  }

  function AddSheets(p: Progress, sheets: seq<Sheet>): Progress
    decreases |sheets|
  {
    if |sheets| == 0 then p else AddSheets(AddSheet(p, sheets[0]), sheets[1..])
  }

  lemma AddSheetsCons(p: Progress, s: Sheet, sheets: seq<Sheet>)
    ensures AddSheets(p, [s] + sheets) == AddSheets(AddSheet(p, s), sheets)
  {
    assert ([s] + sheets)[1..] == sheets;
  }

  lemma {:induction false} AddSheetsAfterFailure(p: Progress, sheets: seq<Sheet>)
    requires p.outcome.Fail?
    ensures AddSheets(p, sheets) == p
  {
    if |sheets| > 0 {
      AddSheetsAfterFailure(AddSheet(p, sheets[0]), sheets[1..]);
    }
  }

  /** The table sheets of one periodicity: pre's and post's when asked for, and always the differences. */
  function DataSheets(job: Job, per: Periodicity, pre: Frame<Date, Entry>, post: Frame<Date, Entry>, diff: Frame<Date, Entry>)
    : (r: seq<Sheet>)
    ensures forall i :: 0 <= i < |r| ==> r[i].Data? && EndsInParenthesis(r[i].name)
  {
    (if job.options.preSheet then [Data(job.pre + " (" + Code(per) + ")", pre, per)] else [])
    + (if job.options.postSheet then [Data(job.post + " (" + Code(per) + ")", post, per)] else [])
    + [Data("Differences (" + Code(per) + ")", diff, per)]
  }

  /**
   * One iteration of the export loop: the sheets of a periodicity that is
   * written, then the metadata sheet when that option is on. As the program
   * is written (`metaOnce` false) the metadata sheet is added for every
   * periodicity; `metaOnce` adds it only while the workbook lacks one.
   */
  function Step(job: Job, frames: Frames, saved: map<Periodicity, SavedPeriod>, per: Periodicity, p: Progress, metaOnce: bool)
    : Progress
  {
    if p.outcome.Fail? then p
    else match Prepare(job, frames, saved, per)
      case Err(e) => Progress(p.book, p.written, Fail(e))
      case Ok(None) => p
      case Ok(Some((pre, post, diff))) =>
        var withMeta := job.options.metaSheet && (!metaOnce || !Named(p.book, "MetaData"));
        AddSheets(p, DataSheets(job, per, pre, post, diff) + (if withMeta then [Meta] else []))
  }

  /** The export loop from the `i`-th stored periodicity on, stopping at the first failure. */
  function Plan(job: Job, frames: Frames, saved: map<Periodicity, SavedPeriod>, i: nat, p: Progress, metaOnce: bool)
    : Progress
    decreases |job.summary.periodicities| - i
  {
    if i >= |job.summary.periodicities| || p.outcome.Fail? then p
    else Plan(job, frames, saved, i + 1, Step(job, frames, saved, job.summary.periodicities[i], p, metaOnce), metaOnce)
  }

  predicate EndsInParenthesis(name: string)
  {
    |name| > 0 && name[|name| - 1] == ')'
  }

  /** A table sheet's name, which ends in its periodicity's parenthesis, is never the metadata sheet's. */
  lemma NotMetaName(name: string)
    requires EndsInParenthesis(name)
    ensures !SameIgnoringCase(name, "MetaData")
  {
    if |name| == 8 {
      assert Lower(name[7]) == ')' != Lower("MetaData"[7]);
    }
  }

  lemma NamedSnoc(book: seq<Sheet>, s: Sheet, name: string)
    ensures Named(book + [s], name) <==> Named(book, name) || SameIgnoringCase(SheetName(s), name)
  {
    var b := book + [s];
    if Named(book, name) {
      var i :| 0 <= i < |book| && SameIgnoringCase(SheetName(book[i]), name);
      assert b[i] == book[i];
    }
    if Named(b, name) && !SameIgnoringCase(SheetName(s), name) {
      var i :| 0 <= i < |b| && SameIgnoringCase(SheetName(b[i]), name);
      assert i < |book| && b[i] == book[i];
    }
    assert b[|book|] == s;
  }

  /** Adding sheets one by one is adding all but the last, then the last. */
  lemma {:induction false} AddSheetsSnoc(p: Progress, sheets: seq<Sheet>, s: Sheet)
    ensures AddSheets(p, sheets + [s]) == AddSheet(AddSheets(p, sheets), s)
    decreases |sheets|
  {
    if |sheets| > 0 {
      assert (sheets + [s])[1..] == sheets[1..] + [s];
      AddSheetsSnoc(AddSheet(p, sheets[0]), sheets[1..], s);
    } else {
      assert [s][1..] == [];
    }
  }

  /** Sheets added without a failure are all in the workbook, after the sheets it had. */
  lemma {:induction false} AddSheetsAppends(p: Progress, sheets: seq<Sheet>)
    requires AddSheets(p, sheets).outcome.Pass?
    ensures p.outcome.Pass? && AddSheets(p, sheets).book == p.book + sheets
    decreases |sheets|
  {
    if |sheets| > 0 {
      var q := AddSheet(p, sheets[0]);
      if q.outcome.Fail? {
        AddSheetsAfterFailure(q, sheets[1..]);
      }
      AddSheetsAppends(q, sheets[1..]);
      assert p.book + sheets == (p.book + [sheets[0]]) + sheets[1..];
    }
  }

  /** An add that fails does so on a name the workbook already has. */
  lemma {:induction false} AddSheetsFailsOnDuplicate(p: Progress, sheets: seq<Sheet>)
    requires p.outcome.Pass? && AddSheets(p, sheets).outcome.Fail?
    ensures AddSheets(p, sheets).outcome.error == Unexpected("DuplicateWorksheetName")
    decreases |sheets|
  {
    var q := AddSheet(p, sheets[0]);
    if q.outcome.Fail? {
      AddSheetsAfterFailure(q, sheets[1..]);
    } else {
      AddSheetsFailsOnDuplicate(q, sheets[1..]);
    }
  }

  /** Adding sheets whose last one is named like a sheet the workbook has always fails on a duplicate name. */
  lemma {:induction false} AddSheetsEndingInDuplicate(p: Progress, sheets: seq<Sheet>)
    requires p.outcome.Pass? && |sheets| > 0 && Named(p.book, SheetName(sheets[|sheets| - 1]))
    ensures AddSheets(p, sheets).outcome == Fail(Unexpected("DuplicateWorksheetName"))
  {
    var last := sheets[|sheets| - 1];
    var front := sheets[..|sheets| - 1];
    assert sheets == front + [last];
    AddSheetsSnoc(p, front, last);
    var q := AddSheets(p, front);
    if q.outcome.Fail? {
      AddSheetsFailsOnDuplicate(p, front);
    } else {
      AddSheetsAppends(p, front);
      assert Named(q.book, SheetName(last)) by {
        var i :| 0 <= i < |p.book| && SameIgnoringCase(SheetName(p.book[i]), SheetName(last));
        assert q.book[i] == p.book[i];
      }
    }
  }

  /**
   * As the program is written, the metadata sheet is added again for every
   * periodicity written: once the workbook has it, the next periodicity the
   * loop writes makes add_worksheet raise DuplicateWorksheetName.
   */
  lemma MetaAgainFails(job: Job, frames: Frames, saved: map<Periodicity, SavedPeriod>, per: Periodicity, p: Progress)
    requires p.outcome.Pass? && job.options.metaSheet && Named(p.book, "MetaData")
    requires Prepare(job, frames, saved, per).Ok? && Prepare(job, frames, saved, per).value.Some?
    ensures Step(job, frames, saved, per, p, false).outcome == Fail(Unexpected("DuplicateWorksheetName"))
  {
    var (pre, post, diff) := Prepare(job, frames, saved, per).value.value;
    var sheets := DataSheets(job, per, pre, post, diff) + [Meta];
    assert sheets[|sheets| - 1] == Meta;
    AddSheetsEndingInDuplicate(p, sheets);
  }

  /** The first periodicity written with the metadata option on leaves the metadata sheet in the workbook. */
  lemma FirstWriteAddsMeta(job: Job, frames: Frames, saved: map<Periodicity, SavedPeriod>, per: Periodicity, p: Progress,
                           metaOnce: bool)
    requires p.outcome.Pass? && job.options.metaSheet && !Named(p.book, "MetaData")
    requires Prepare(job, frames, saved, per).Ok? && Prepare(job, frames, saved, per).value.Some?
    requires Step(job, frames, saved, per, p, metaOnce).outcome.Pass?
    ensures Named(Step(job, frames, saved, per, p, metaOnce).book, "MetaData")
  {
    var (pre, post, diff) := Prepare(job, frames, saved, per).value.value;
    var sheets := DataSheets(job, per, pre, post, diff) + [Meta];
    AddSheetsAppends(p, sheets);
    var book := Step(job, frames, saved, per, p, metaOnce).book;
    assert book[|book| - 1] == Meta;
    assert SameIgnoringCase("MetaData", "MetaData");
  }

  /**
   * With the metadata sheet added only while the workbook lacks it, the
   * metadata sheet never makes a periodicity fail: the step fails exactly
   * when adding its table sheets does.
   */
  lemma MetaOnceNeverFails(job: Job, frames: Frames, saved: map<Periodicity, SavedPeriod>, per: Periodicity, p: Progress)
    requires p.outcome.Pass?
    requires Prepare(job, frames, saved, per).Ok? && Prepare(job, frames, saved, per).value.Some?
    ensures var (pre, post, diff) := Prepare(job, frames, saved, per).value.value;
            Step(job, frames, saved, per, p, true).outcome == AddSheets(p, DataSheets(job, per, pre, post, diff)).outcome
  {
    var (pre, post, diff) := Prepare(job, frames, saved, per).value.value;
    var tables := DataSheets(job, per, pre, post, diff);
    if job.options.metaSheet && !Named(p.book, "MetaData") {
      AddSheetsSnoc(p, tables, Meta);
      var q := AddSheets(p, tables);
      if q.outcome.Pass? {
        AddSheetsAppends(p, tables);
        forall i | 0 <= i < |q.book|
          ensures !SameIgnoringCase(SheetName(q.book[i]), "MetaData")
        {
          if i < |p.book| {
            assert q.book[i] == p.book[i];
          } else {
            assert q.book[i] == tables[i - |p.book|];
            NotMetaName(tables[i - |p.book|].name);
          }
        }
      }
    } else {
      assert tables + [] == tables;
    }
  }

  /** Whether the workbook has a table sheet. */
  predicate HasTable(book: seq<Sheet>)
  {
    exists i :: 0 <= i < |book| && book[i].Data?
  }

  lemma {:induction false} AddSheetsWritten(p: Progress, sheets: seq<Sheet>)
    requires p.outcome.Pass? ==> (p.written <==> HasTable(p.book))
    ensures var r := AddSheets(p, sheets);
            r.outcome.Pass? ==> (r.written <==> HasTable(r.book))
    decreases |sheets|
  {
    if |sheets| > 0 {
      var q := AddSheet(p, sheets[0]);
      if q.outcome.Pass? {
        var b := p.book + [sheets[0]];
        assert b[|p.book|] == sheets[0];
        if HasTable(p.book) {
          var i :| 0 <= i < |p.book| && p.book[i].Data?;
          assert b[i] == p.book[i];
        }
        if HasTable(b) && !sheets[0].Data? {
          var i :| 0 <= i < |b| && b[i].Data?;
          assert i < |p.book| && b[i] == p.book[i];
        }
      }
      AddSheetsWritten(q, sheets[1..]);
    }
  }

  /**
   * The `written` flag of an export that did not raise says whether the
   * workbook has a table sheet: the file is removed exactly when nothing
   * was written to it.
   */
  lemma {:induction false} PlanWritten(job: Job, frames: Frames, saved: map<Periodicity, SavedPeriod>, i: nat, p: Progress,
                                       metaOnce: bool)
    requires p.outcome.Pass? ==> (p.written <==> HasTable(p.book))
    ensures var r := Plan(job, frames, saved, i, p, metaOnce);
            r.outcome.Pass? ==> (r.written <==> HasTable(r.book))
    decreases |job.summary.periodicities| - i
  {
    if i < |job.summary.periodicities| && p.outcome.Pass? {
      var per := job.summary.periodicities[i];
      match Prepare(job, frames, saved, per) {
        case Err(e) =>
        case Ok(None) =>
        case Ok(Some((pre, post, diff))) =>
          var withMeta := job.options.metaSheet && (!metaOnce || !Named(p.book, "MetaData"));
          AddSheetsWritten(p, DataSheets(job, per, pre, post, diff) + (if withMeta then [Meta] else []));
      }
      PlanWritten(job, frames, saved, i + 1, Step(job, frames, saved, per, p, metaOnce), metaOnce);
    }
  }

  /** Skipping on, and no periodicity left with its `different` flag set: the loop writes nothing. */
  lemma {:induction false} NothingDifferentWritesNothing(job: Job, frames: Frames, saved: map<Periodicity, SavedPeriod>,
                                                        i: nat, p: Progress, metaOnce: bool)
    requires job.options.skipNoDiffs
    requires forall per :: per in job.summary.periodicities ==> per in saved && !saved[per].different
    ensures Plan(job, frames, saved, i, p, metaOnce) == p
    decreases |job.summary.periodicities| - i
  {
    if i < |job.summary.periodicities| && p.outcome.Pass? {
      assert job.summary.periodicities[i] in job.summary.periodicities;
      NothingDifferentWritesNothing(job, frames, saved, i + 1, p, metaOnce);
    }
  }

  /**
   * should_skip agrees with the export loop: when the comparison found no
   * difference and skipping is on, the export is skipped, and running it
   * would have written nothing and removed the file.
   */
  lemma SkipAgreesWithExport(c: Comparison, frames: Frames, start: bool, saved0: map<Periodicity, SavedPeriod>,
                             saved: map<Periodicity, SavedPeriod>, job: Job)
    requires Compared(c, frames, start, saved0, false, saved)
    requires job.summary == Summary(c.periodicities, false) && job.options.skipNoDiffs
    ensures Skip(job)
    ensures Plan(job, frames, saved, 0, Progress([], false, Pass), false) == Progress([], false, Pass)
  {
    NoDifferenceNoneDifferent(c, frames, start, saved0, saved);
    NothingDifferentWritesNothing(job, frames, saved, 0, Progress([], false, Pass), false);
  }

  /**
   * Export: the workbook it writes, the flag telling whether a table sheet
   * was written, and whether the file was removed at the end. The loop
   * adds the metadata sheet with every periodicity it writes.
   */
  class Export {
    const job: Job
    var book: seq<Sheet>
    var written: bool
    var removed: bool

    constructor (job: Job)
      ensures this.job == job && book == [] && !written && !removed
    {
      this.job := job;
      book := [];
      written := false;
      removed := false;
    }

    /** _write_sheet: the flag is set, then add_worksheet adds the sheet unless its name is taken. */
    method WriteSheet(name: string, body: Frame<Date, Entry>, per: Periodicity) returns (o: Outcome<Fault>)
      modifies this`book, this`written
      ensures Progress(book, written, o) == AddSheet(Progress(old(book), old(written), Pass), Data(name, body, per))
    {
      written := true;
      if Named(book, name) {
        return Fail(Unexpected("DuplicateWorksheetName"));
      }
      book := book + [Data(name, body, per)];
      return Pass;
    }

    /** _write_meta: add_worksheet('MetaData'); the flag is left alone. */
    method WriteMeta() returns (o: Outcome<Fault>)
      modifies this`book
      ensures Progress(book, written, o) == AddSheet(Progress(old(book), written, Pass), Meta)
    {
      if Named(book, "MetaData") {
        return Fail(Unexpected("DuplicateWorksheetName"));
      }
      book := book + [Meta];
      return Pass;
    }

    /**
     * One optional table sheet of a period: written when `write` holds, with
     * `rest` the sheets still to come, so that a failure ends the period.
     */
    method WriteIf(write: bool, name: string, body: Frame<Date, Entry>, per: Periodicity, ghost rest: seq<Sheet>)
      returns (o: Outcome<Fault>)
      modifies this`book, this`written
      ensures var todo := (if write then [Data(name, body, per)] else []) + rest;
              if o.Fail? then Progress(book, written, o) == AddSheets(Progress(old(book), old(written), Pass), todo)
              else AddSheets(Progress(book, written, o), rest) == AddSheets(Progress(old(book), old(written), Pass), todo)
    {
      o := Pass;
      if write {
        o := WriteSheet(name, body, per);
        AddSheetsCons(Progress(old(book), old(written), Pass), Data(name, body, per), rest);
        if o.Fail? {
          AddSheetsAfterFailure(Progress(book, written, o), rest);
        }
      } else {
        assert [] + rest == rest;
      }
    }

    /** The sheets of one periodicity that is written, in the loop's order, the metadata sheet last when that option is on. */
    method WritePeriod(per: Periodicity, pre: Frame<Date, Entry>, post: Frame<Date, Entry>, diff: Frame<Date, Entry>)
      returns (o: Outcome<Fault>)
      modifies this`book, this`written
      ensures var withMeta := job.options.metaSheet;
              Progress(book, written, o)
              == AddSheets(Progress(old(book), old(written), Pass), DataSheets(job, per, pre, post, diff) + (if withMeta then [Meta] else []))
    {
      var withMeta := job.options.metaSheet;
      ghost var metas := if withMeta then [Meta] else [];
      ghost var last := [Data("Differences (" + Code(per) + ")", diff, per)] + metas;
      ghost var mid := (if job.options.postSheet then [Data(job.post + " (" + Code(per) + ")", post, per)] else []) + last;
      assert (if job.options.preSheet then [Data(job.pre + " (" + Code(per) + ")", pre, per)] else []) + mid
          == DataSheets(job, per, pre, post, diff) + metas;
      o := WriteIf(job.options.preSheet, job.pre + " (" + Code(per) + ")", pre, per, mid);
      if o.Fail? {
        return;
      }
      o := WriteIf(job.options.postSheet, job.post + " (" + Code(per) + ")", post, per, last);
      if o.Fail? {
        return;
      }
      o := WriteIf(true, "Differences (" + Code(per) + ")", diff, per, metas);
      if o.Fail? {
        return;
      }
      if withMeta {
        o := WriteMeta();
        assert [Meta][1..] == [];
      }
    }

    /**
     * export: every stored periodicity in turn, skipped or written as the
     * options decide, then the file removed when no table sheet was written;
     * an exception ends the export with the file left as it is.
     */
    method Run(frames: Frames, saved: map<Periodicity, SavedPeriod>) returns (r: Outcome<Fault>)
      modifies this`book, this`written, this`removed
      ensures Progress(book, written, r) == Plan(job, frames, saved, 0, Progress([], false, Pass), false)
      ensures removed <==> r.Pass? && !HasTable(book)
    {
      book, written, removed := [], false, false;
      ghost var final := Plan(job, frames, saved, 0, Progress([], false, Pass), false);
      PlanWritten(job, frames, saved, 0, Progress([], false, Pass), false);
      var pers := job.summary.periodicities;
      for i := 0 to |pers|
        invariant !removed
        invariant Plan(job, frames, saved, i, Progress(book, written, Pass), false) == final
      {
        var prepared := Prepare(job, frames, saved, pers[i]);
        if prepared.Err? {
          return Fail(prepared.error);
        }
        if prepared.value.Some? {
          var (pre, post, diff) := prepared.value.value;
          r := WritePeriod(pers[i], pre, post, diff);
          if r.Fail? {
            return;
          }
        }
      }
      r := Pass;
      removed := !written;
    }
  }

  // ------------------------------------------------------- metadata order

  /** The keys `_write_pos_meta` writes first, in this order, each only when the position has it. */
  const MetaOrder: seq<string> := ["Downloaded", "Statistical Activity", "Mode", "Status", "Dataset", "Dimensions", "Periodicities"]

  /** A position's metadata dictionary as its items in insertion order, the values as the text written for them. */
  type MetaItems = seq<(string, string)>

  function KeysOf(items: MetaItems): (r: seq<string>)
    ensures |r| == |items| && forall i :: 0 <= i < |items| ==> r[i] == items[i].0
  {
    seq(|items|, i requires 0 <= i < |items| => items[i].0)
  }

  /** What makes a sequence of items a dictionary: no key twice. */
  predicate DistinctKeys(items: MetaItems)
  {
    forall i, j :: 0 <= i < j < |items| ==> items[i].0 != items[j].0
  }

  /** `d[key]`. */
  function ValueAt(items: MetaItems, key: string): string
    requires key in KeysOf(items)
  {
    items[IndexOf(KeysOf(items), key)].1
  }

  /** `d[key] = value`: the value replaced where the key is, and otherwise the item added at the end. */
  function Put(items: MetaItems, key: string, value: string): (r: MetaItems)
    ensures |r| == if key in KeysOf(items) then |items| else |items| + 1
    ensures forall i :: 0 <= i < |items| && items[i].0 != key ==> r[i] == items[i]
    ensures key in KeysOf(r) && ValueAt(r, key) == value
    ensures Elems(KeysOf(r)) == Elems(KeysOf(items)) + {key}
  {
    if key in KeysOf(items) then
      var i := IndexOf(KeysOf(items), key);
      var r := items[i := (key, value)];
      assert KeysOf(r)[i] == key;
      var j := IndexOf(KeysOf(r), key);
      assert KeysOf(r)[..i] == KeysOf(items)[..i];
      assert j == i;
      r
    else
      var r := items + [(key, value)];
      assert KeysOf(r)[|items|] == key;
      r
  }

  lemma AddNext(done: MetaItems, rest: MetaItems, j: nat)
    requires j < |rest|
    ensures (done + rest[..j]) + [rest[j]] == done + rest[..j + 1]
  {
    assert rest[..j + 1] == rest[..j] + [rest[j]];
  }

  /** The items whose key is not in `gone`, in their order. */
  function Others(items: MetaItems, gone: set<string>): (r: MetaItems)
    ensures forall kv :: kv in r <==> kv in items && kv.0 !in gone
  {
    if |items| == 0 then []
    else (if items[0].0 in gone then [] else [items[0]]) + Others(items[1..], gone)
  }

  /** The items of `order`'s keys the dictionary has, in `order`'s order. */
  function Picked(order: seq<string>, items: MetaItems): (r: MetaItems)
    ensures forall kv :: kv in r ==> kv.0 in order
  {
    if |order| == 0 then []
    else
      var o := order[|order| - 1];
      Picked(order[..|order| - 1], items) + (if o in KeysOf(items) then [(o, ValueAt(items, o))] else [])
  }

  /** The order `_write_pos_meta` writes a position's metadata in. */
  function OrderedMeta(items: MetaItems): MetaItems
  {
    Picked(MetaOrder, items) + Others(items, Elems(MetaOrder))
  }

  lemma KeyOf(items: MetaItems, key: string)
    ensures key in KeysOf(items) <==> exists kv :: kv in items && kv.0 == key
  {
    if key in KeysOf(items) {
      var i :| 0 <= i < |items| && KeysOf(items)[i] == key;
      assert items[i] in items;
    }
    if exists kv :: kv in items && kv.0 == key {
      var kv :| kv in items && kv.0 == key;
      var i :| 0 <= i < |items| && items[i] == kv;
      assert KeysOf(items)[i] == key;
    }
  }

  /** In a dictionary, an item's value is the value at its key. */
  lemma ValueOfItem(items: MetaItems, kv: (string, string))
    requires DistinctKeys(items) && kv in items
    ensures kv.0 in KeysOf(items) && ValueAt(items, kv.0) == kv.1
  {
    var i :| 0 <= i < |items| && items[i] == kv;
    assert KeysOf(items)[i] == kv.0;
    var j := IndexOf(KeysOf(items), kv.0);
    assert items[j].0 == kv.0;
  }

  lemma {:induction false} OthersDistinct(items: MetaItems, gone: set<string>)
    requires DistinctKeys(items)
    ensures DistinctKeys(Others(items, gone))
  {
    if |items| > 0 {
      var rest := Others(items[1..], gone);
      OthersDistinct(items[1..], gone);
      forall kv | kv in rest
        ensures kv.0 != items[0].0
      {
        var i :| 0 <= i < |items[1..]| && items[1..][i] == kv;
        assert items[i + 1] == kv;
      }
    }
  }

  /** Filtering a concatenation is concatenating the filtered parts: the other keys keep their order. */
  lemma {:induction false} OthersConcat(a: MetaItems, b: MetaItems, gone: set<string>)
    ensures Others(a + b, gone) == Others(a, gone) + Others(b, gone)
  {
    if |a| > 0 {
      assert (a + b)[1..] == a[1..] + b;
      OthersConcat(a[1..], b, gone);
    } else {
      assert a + b == b;
    }
  }

  lemma {:induction false} OthersTwice(items: MetaItems, s: set<string>, t: set<string>)
    ensures Others(Others(items, s), t) == Others(items, s + t)
  {
    if |items| > 0 {
      var head := if items[0].0 in s then [] else [items[0]];
      OthersConcat(head, Others(items[1..], s), t);
      OthersTwice(items[1..], s, t);
    }
  }

  lemma {:induction false} OthersNone(items: MetaItems, gone: set<string>)
    requires forall kv :: kv in items ==> kv.0 !in gone
    ensures Others(items, gone) == items
  {
    if |items| > 0 {
      assert items[0] in items;
      forall kv | kv in items[1..]
        ensures kv.0 !in gone
      {
        var i :| 0 <= i < |items[1..]| && items[1..][i] == kv;
        assert items[i + 1] == kv;
      }
      OthersNone(items[1..], gone);
      assert [items[0]] + items[1..] == items;
    }
  }

  /** Picking along a concatenated order is picking along each part in turn. */
  lemma {:induction false} PickedConcat(a: seq<string>, b: seq<string>, items: MetaItems)
    ensures Picked(a + b, items) == Picked(a, items) + Picked(b, items)
    decreases |b|
  {
    if |b| == 0 {
      assert a + b == a;
    } else {
      var ab := a + b;
      assert ab[..|ab| - 1] == a + b[..|b| - 1];
      assert ab[|ab| - 1] == b[|b| - 1];
      PickedConcat(a, b[..|b| - 1], items);
    }
  }

  /** Exactly the dictionary's items whose key is in `order` are picked. */
  lemma {:induction false} PickedItems(order: seq<string>, items: MetaItems)
    requires DistinctKeys(items)
    ensures forall kv :: kv in Picked(order, items) <==> kv in items && kv.0 in order
  {
    if |order| > 0 {
      var front := order[..|order| - 1];
      var o := order[|order| - 1];
      PickedItems(front, items);
      assert order == front + [o];
      forall kv | kv in items && kv.0 in order
        ensures kv in Picked(order, items)
      {
        ValueOfItem(items, kv);
        if kv.0 != o {
          assert kv.0 in front;
        }
      }
      forall kv | kv in Picked(order, items)
        ensures kv in items
      {
        if kv !in Picked(front, items) {
          assert kv == (o, ValueAt(items, o));
          KeyOf(items, o);
          var kv' :| kv' in items && kv'.0 == o;
          ValueOfItem(items, kv');
        }
      }
    }
  }

  lemma {:induction false} PickedDistinct(order: seq<string>, items: MetaItems)
    requires Distinct(order)
    ensures DistinctKeys(Picked(order, items))
  {
    if |order| > 0 {
      var front := order[..|order| - 1];
      var o := order[|order| - 1];
      PickedDistinct(front, items);
      forall kv | kv in Picked(front, items)
        ensures kv.0 != o
      {
        var i :| 0 <= i < |front| && front[i] == kv.0;
        assert order[i] == kv.0;
      }
    }
  }

  /**
   * _write_pos_meta writes each of a position's metadata items once and
   * nothing else: the same items, no key twice.
   */
  lemma OrderedMetaItems(items: MetaItems)
    requires DistinctKeys(items)
    ensures forall kv :: kv in OrderedMeta(items) <==> kv in items
    ensures DistinctKeys(OrderedMeta(items))
  {
    var picked := Picked(MetaOrder, items);
    var others := Others(items, Elems(MetaOrder));
    PickedItems(MetaOrder, items);
    assert Distinct(MetaOrder);
    PickedDistinct(MetaOrder, items);
    OthersDistinct(items, Elems(MetaOrder));
    var r := picked + others;
    forall i, j | 0 <= i < j < |r|
      ensures r[i].0 != r[j].0
    {
      if i < |picked| && j >= |picked| {
        assert r[i] in picked && r[j] in others;
      } else if j < |picked| {
        assert r[i] == picked[i] && r[j] == picked[j];
      } else {
        assert r[i] == others[i - |picked|] && r[j] == others[j - |picked|];
      }
    }
  }

  /** The listed keys come first: no other key is written before one of them. */
  lemma ListedFirst(items: MetaItems)
    ensures forall i, j :: 0 <= i < j < |OrderedMeta(items)| && OrderedMeta(items)[j].0 in MetaOrder
                           ==> OrderedMeta(items)[i].0 in MetaOrder
  {
    var picked := Picked(MetaOrder, items);
    var others := Others(items, Elems(MetaOrder));
    var r := picked + others;
    forall k | |picked| <= k < |r|
      ensures r[k].0 !in MetaOrder
    {
      assert r[k] == others[k - |picked|] && others[k - |picked|] in others;
    }
    forall i, j | 0 <= i < j < |r| && r[j].0 in MetaOrder
      ensures r[i].0 in MetaOrder
    {
      assert j < |picked|;
      assert r[i] == picked[i] && picked[i] in picked;
    }
  }

  /** The keys left after filtering, with their values. */
  lemma OthersKey(items: MetaItems, gone: set<string>, key: string)
    requires DistinctKeys(items)
    ensures key in KeysOf(Others(items, gone)) <==> key in KeysOf(items) && key !in gone
    ensures key in KeysOf(Others(items, gone)) ==> ValueAt(Others(items, gone), key) == ValueAt(items, key)
  {
    var rest := Others(items, gone);
    KeyOf(rest, key);
    KeyOf(items, key);
    if key in KeysOf(rest) {
      var kv :| kv in rest && kv.0 == key;
      OthersDistinct(items, gone);
      ValueOfItem(rest, kv);
      ValueOfItem(items, kv);
    }
  }

  lemma PickedKey(order: seq<string>, items: MetaItems, key: string)
    requires key !in order
    ensures key !in KeysOf(Picked(order, items))
  {
    KeyOf(Picked(order, items), key);
  }

  /** One round of the first loop: `o` is popped into the ordered items when the dictionary has it. */
  lemma OrderStep(order: seq<string>, pos: MetaItems, n: nat)
    requires Distinct(order) && DistinctKeys(pos) && n < |order|
    ensures var o := order[n];
            var rest := Others(pos, Elems(order[..n]));
            && (o in KeysOf(rest) <==> o in KeysOf(pos))
            && (o in KeysOf(rest) ==> ValueAt(rest, o) == ValueAt(pos, o))
            && o !in KeysOf(Picked(order[..n], pos))
  {
    var o := order[n];
    assert o !in order[..n];
    OthersKey(pos, Elems(order[..n]), o);
    PickedKey(order[..n], pos, o);
  }

  /** One round of the first loop: what is left and what is picked after `o`. */
  lemma OrderStepRest(order: seq<string>, pos: MetaItems, n: nat)
    requires n < |order|
    ensures var o := order[n];
            var rest := Others(pos, Elems(order[..n]));
            && Picked(order[..n + 1], pos)
               == Picked(order[..n], pos) + (if o in KeysOf(pos) then [(o, ValueAt(pos, o))] else [])
            && (o in KeysOf(rest) ==> Others(rest, {o}) == Others(pos, Elems(order[..n + 1])))
            && (o !in KeysOf(rest) ==> rest == Others(pos, Elems(order[..n + 1])))
  {
    var o := order[n];
    var rest := Others(pos, Elems(order[..n]));
    assert order[..n + 1][..n] == order[..n];
    assert Elems(order[..n + 1]) == Elems(order[..n]) + {o} by {
      assert order[..n + 1] == order[..n] + [o];
    }
    OthersTwice(pos, Elems(order[..n]), {o});
    if o !in KeysOf(rest) {
      KeyOf(rest, o);
      OthersNone(rest, {o});
    }
  }

  /** One round of the second loop: the next other item is new to the ordered items. */
  lemma OtherStep(order: seq<string>, pos: MetaItems, picked: MetaItems, rest: MetaItems, j: nat)
    requires DistinctKeys(pos) && picked == Picked(order, pos) && rest == Others(pos, Elems(order)) && j < |rest|
    ensures rest[j].0 !in KeysOf(picked + rest[..j])
  {
    {
      var done := picked + rest[..j];
      OthersDistinct(pos, Elems(order));
      assert rest[j] in rest;
      forall kv | kv in done
        ensures kv.0 != rest[j].0
      {
        if kv !in Picked(order, pos) {
          var i :| 0 <= i < j && rest[..j][i] == kv;
          assert rest[i] == kv;
        }
      }
      KeyOf(done, rest[j].0);
    }
  }

  /**
   * _write_pos_meta's ordering: each listed key the dictionary has is popped
   * into a new dictionary in the listed order, then the remaining items are
   * added in their order.
   */
  method OrderMeta(pos: MetaItems) returns (ordered: MetaItems)
    requires DistinctKeys(pos)
    ensures ordered == OrderedMeta(pos)
  {
    assert Distinct(MetaOrder);
    ordered := OrderBy(MetaOrder, pos);
  }

  /** The two loops of the ordering, for the list of keys `order` that comes first. */
  method OrderBy(order: seq<string>, pos: MetaItems) returns (ordered: MetaItems)
    requires Distinct(order) && DistinctKeys(pos)
    ensures ordered == Picked(order, pos) + Others(pos, Elems(order))
  {
    var rest := pos;
    ordered := [];
    assert Elems(order[..0]) == {};
    OthersNone(pos, {});
    for n := 0 to |order|
      invariant rest == Others(pos, Elems(order[..n]))
      invariant ordered == Picked(order[..n], pos)
    {
      var o := order[n];
      OrderStep(order, pos, n);
      OrderStepRest(order, pos, n);
      if o in KeysOf(rest) {
        ordered := Put(ordered, o, ValueAt(rest, o));
        rest := Others(rest, {o});
      }
    }
    assert order[..|order|] == order;
    assert rest == Others(pos, Elems(order)) && ordered == Picked(order, pos);
    ghost var picked := ordered;
    for j := 0 to |rest|
      invariant ordered == picked + rest[..j]
    {
      OtherStep(order, pos, picked, rest, j);
      AddNext(picked, rest, j);
      ordered := Put(ordered, rest[j].0, rest[j].1);
    }
    assert rest[..|rest|] == rest;
  }
}
