/**
 * The comparison of one visualisation between a pre-change and a post-change
 * position: the checks made before diffing, the difference table (post minus
 * pre over the union of rows and columns), the table of reasons explaining its
 * missing cells, and the loop over periodicities with its running
 * `differences` flag.
 */
module Comparisons {
  import opened Wrappers
  import opened Tables
  import opened Validation
  import opened Visualisations
  import opened CompareItems

  // ------------------------------------------------------------ pair checks

  /** _check_periodicities' result: the two positions have the same set of periodicities. */
  function CheckPeriodicities(pre: seq<Periodicity>, post: seq<Periodicity>): (same: bool)
    ensures same <==> forall p :: p in pre <==> p in post
  {
    assert forall p :: p in pre <==> p in Elems(pre);
    assert forall p :: p in post <==> p in Elems(post);
    Elems(pre) == Elems(post)
  }

  /** The periodicities of `post` that `pre` also has, in post's order. */
  function Common(post: seq<Periodicity>, pre: seq<Periodicity>): (r: seq<Periodicity>)
    ensures |r| <= |post|
    ensures forall p :: p in r <==> p in post && p in pre
  {
    if |post| == 0 then []
    else (if post[0] in pre then [post[0]] else []) + Common(post[1..], pre)
  }

  /** Filtering by a list that holds every element keeps the whole list. */
  lemma {:induction false} CommonKeepsAll(post: seq<Periodicity>, pre: seq<Periodicity>)
    requires forall p :: p in post ==> p in pre
    ensures Common(post, pre) == post
  {
    if |post| > 0 {
      CommonKeepsAll(post[1..], pre);
      assert post == [post[0]] + post[1..];
    }
  }

  /**
   * _get_periodicities as written: the flag it tests is _check_periodicities'
   * result, which is true when the sets are EQUAL, so the list is filtered
   * only when filtering changes nothing and is left whole when it matters.
   */
  function GetPeriodicitiesAsWritten(diffPers: bool, pre: seq<Periodicity>, post: seq<Periodicity>): seq<Periodicity>
  {
    if diffPers then Common(post, pre) else post
  }

  /**
   * As written, the filter never takes effect: whichever way the check goes,
   * the list compared is post's whole list, periodicities pre lacks included.
   */
  lemma AsWrittenComparesPost(pre: seq<Periodicity>, post: seq<Periodicity>)
    ensures GetPeriodicitiesAsWritten(CheckPeriodicities(pre, post), pre, post) == post
  {
    if CheckPeriodicities(pre, post) {
      CommonKeepsAll(post, pre);
    }
  }

  /** The smallest case: pre has annual data only, post annual and quarterly; quarterly is compared and pre has none. */
  lemma AsWrittenReadsMissingPeriod()
    ensures var pre, post := [Annual], [Annual, Quarterly];
            Quarterly in GetPeriodicitiesAsWritten(CheckPeriodicities(pre, post), pre, post) && Quarterly !in pre
  {
    var pre, post := [Annual], [Annual, Quarterly];
    AsWrittenComparesPost(pre, post);
  }

  /** The periodicities compared, as intended: post's, in post's order, keeping those pre also has. */
  function GetPeriodicities(pre: seq<Periodicity>, post: seq<Periodicity>): (r: seq<Periodicity>)
    ensures |r| <= |post|
    ensures forall p :: p in r <==> p in pre && p in post
  {
    Common(post, pre)
  }

  /**
   * The intended list agrees with the code as written whenever the two sets
   * are equal.
   */
  lemma GetPeriodicitiesSpec(pre: seq<Periodicity>, post: seq<Periodicity>)
    ensures CheckPeriodicities(pre, post) ==>
              GetPeriodicities(pre, post) == post
              && GetPeriodicitiesAsWritten(CheckPeriodicities(pre, post), pre, post) == post
  {
    if CheckPeriodicities(pre, post) {
      CommonKeepsAll(post, pre);
    }
  }

  /**
   * _check_dimensions: different dimension sets cannot be compared; equal
   * sets in a different order are compared after reordering (the result is
   * whether to reorder).
   */
  function CheckDimensions(prePosition: string, postPosition: string, preDims: seq<string>, postDims: seq<string>)
    : (r: Result<bool, Fault>)
    ensures r.Err? <==> exists d :: (d in preDims) != (d in postDims)
    ensures r.Err? ==> r.error.InvalidComparison? && r.error.short == "Different dimensions"
    ensures r.Ok? ==> (r.value <==> preDims != postDims)
  {
    if Elems(preDims) != Elems(postDims) then
      var d :| d in Elems(preDims) + Elems(postDims) && d !in Elems(preDims) * Elems(postDims);
      assert (d in preDims) != (d in postDims);
      Err(InvalidComparison(
        prePosition + " has dimensions " + ListRepr(preDims) + ", while "
        + postPosition + " has dimensions " + ListRepr(postDims),
        "Different dimensions"))
    else
      assert forall d :: (d in preDims) == (d in Elems(preDims));
      Ok(preDims != postDims)
  }

  // ------------------------------------------------------------- reordering

  /** Two lists of dimension names that are one another's reordering. */
  predicate Reorderable(from: seq<string>, to: seq<string>)
  {
    Distinct(from) && Distinct(to) && |from| == |to| && Elems(from) == Elems(to)
  }

  /** reorder_levels on one row label: level `j` of the result is the level named `to[j]`. */
  function ReorderKey(key: Key, from: seq<string>, to: seq<string>): (r: Key)
    requires |key| == |from| && Elems(to) <= Elems(from)
    ensures |r| == |to| && forall j :: 0 <= j < |to| ==> to[j] in from && r[j] == key[IndexOf(from, to[j])]
  {
    assert forall j :: 0 <= j < |to| ==> to[j] in Elems(to);
    seq(|to|, j requires 0 <= j < |to| => key[IndexOf(from, to[j])])
  }

  lemma IndexOfDistinct(s: seq<string>, i: nat)
    requires Distinct(s) && i < |s|
    ensures IndexOf(s, s[i]) == i
  {
  }

  /** Reordering back undoes a reordering. */
  lemma ReorderKeyInverse(key: Key, from: seq<string>, to: seq<string>)
    requires Reorderable(from, to) && |key| == |from|
    ensures ReorderKey(ReorderKey(key, from, to), to, from) == key
  {
    var once := ReorderKey(key, from, to);
    var back := ReorderKey(once, to, from);
    forall i | 0 <= i < |from|
      ensures back[i] == key[i]
    {
      var j := IndexOf(to, from[i]);
      assert back[i] == once[j];
      assert once[j] == key[IndexOf(from, to[j])];
      IndexOfDistinct(from, i);
    }
  }

  /** Rows whose labels all have one level per listed dimension. */
  predicate Keyed(t: Table, dims: seq<string>)
  {
    (forall k :: k in t.rows ==> |k| == |dims|) && forall cell :: cell in t.cells ==> |cell.0| == |dims|
  }

  /** reorder_levels on the row labels. */
  function ReorderRows(rows: set<Key>, from: seq<string>, to: seq<string>): (r: set<Key>)
    requires Reorderable(from, to) && forall k :: k in rows ==> |k| == |from|
    ensures forall k :: k in rows ==> ReorderKey(k, from, to) in r
    ensures forall k :: k in r ==> |k| == |to| && exists src :: src in rows && k == ReorderKey(src, from, to)
  {
    set k | k in rows :: ReorderKey(k, from, to)
  }

  /** The position of a cell once its row label is reordered. */
  function ReorderCell(cell: (Key, Date), from: seq<string>, to: seq<string>): (r: (Key, Date))
    requires |cell.0| == |from| && Elems(to) <= Elems(from)
    ensures |r.0| == |to| && r.1 == cell.1
  {
    (ReorderKey(cell.0, from, to), cell.1)
  }

  lemma ReorderCellInverse(cell: (Key, Date), from: seq<string>, to: seq<string>)
    requires Reorderable(from, to) && |cell.0| == |from|
    ensures ReorderCell(ReorderCell(cell, from, to), to, from) == cell
  {
    ReorderKeyInverse(cell.0, from, to);
  }

  /**
   * reorder_levels on the cells: each value moves to its reordered label, and
   * a label holds a value exactly when reordering it back names a source cell.
   */
  function ReorderCells(cells: map<(Key, Date), Option<int>>, from: seq<string>, to: seq<string>)
    : (r: map<(Key, Date), Option<int>>)
    requires Reorderable(from, to) && forall cell :: cell in cells ==> |cell.0| == |from|
    ensures forall cell {:trigger cell in r} :: cell in r <==> |cell.0| == |to| && ReorderCell(cell, to, from) in cells
    ensures forall cell {:trigger r[cell]} :: cell in r ==> r[cell] == cells[ReorderCell(cell, to, from)]
  {
    assert forall a, b :: a in cells && b in cells && ReorderCell(a, from, to) == ReorderCell(b, from, to) ==> a == b by {
      forall a, b | a in cells && b in cells && ReorderCell(a, from, to) == ReorderCell(b, from, to)
        ensures a == b
      {
        ReorderCellInverse(a, from, to);
        ReorderCellInverse(b, from, to);
      }
    }
    var r := map cell | cell in cells :: ReorderCell(cell, from, to) := cells[cell];
    forall cell | cell in r
      ensures |cell.0| == |to| && ReorderCell(cell, to, from) in cells && r[cell] == cells[ReorderCell(cell, to, from)]
    {
      var src :| src in cells && cell == ReorderCell(src, from, to);
      ReorderCellInverse(src, from, to);
    }
    forall cell: (Key, Date) | |cell.0| == |to| && ReorderCell(cell, to, from) in cells
      ensures cell in r
    {
      ReorderCellInverse(cell, to, from);
    }
    r
  }

  /** pre.reorder_levels(post's dimensions): every row label reordered, every cell kept. */
  function ReorderTable(t: Table, from: seq<string>, to: seq<string>): (r: Table)
    requires Reorderable(from, to) && Keyed(t, from)
    ensures r.cols == t.cols && Keyed(r, to)
    ensures forall cell :: cell in t.cells ==> ReorderCell(cell, from, to) in r.cells && r.cells[ReorderCell(cell, from, to)] == t.cells[cell]
  {
    var cells := ReorderCells(t.cells, from, to);
    forall cell | cell in t.cells
      ensures ReorderCell(cell, from, to) in cells && cells[ReorderCell(cell, from, to)] == t.cells[cell]
    {
      ReorderCellInverse(cell, from, to);
    }
    Frame(ReorderRows(t.rows, from, to), t.cols, cells)
  }

  lemma ReorderRowsInverse(rows: set<Key>, from: seq<string>, to: seq<string>)
    requires Reorderable(from, to) && forall k :: k in rows ==> |k| == |from|
    ensures Reorderable(to, from)
    ensures ReorderRows(ReorderRows(rows, from, to), to, from) == rows
  {
    var once := ReorderRows(rows, from, to);
    var back := ReorderRows(once, to, from);
    forall k | k in back
      ensures k in rows
    {
      var k1 :| k1 in once && k == ReorderKey(k1, to, from);
      var k0 :| k0 in rows && k1 == ReorderKey(k0, from, to);
      ReorderKeyInverse(k0, from, to);
    }
    forall k | k in rows
      ensures k in back
    {
      ReorderKeyInverse(k, from, to);
    }
  }

  /** One cell of a table reordered and reordered back. */
  lemma ReorderCellsBack(cells: map<(Key, Date), Option<int>>, from: seq<string>, to: seq<string>, cell: (Key, Date))
    requires Reorderable(from, to) && forall cell :: cell in cells ==> |cell.0| == |from|
    ensures Reorderable(to, from)
    ensures cell in ReorderCells(ReorderCells(cells, from, to), to, from) <==> cell in cells
    ensures cell in cells ==> ReorderCells(ReorderCells(cells, from, to), to, from)[cell] == cells[cell]
  {
    var once := ReorderCells(cells, from, to);
    var back := ReorderCells(once, to, from);
    if |cell.0| == |from| {
      ReorderCellInverse(cell, from, to);
      var c1 := ReorderCell(cell, from, to);
      assert cell in back <==> c1 in once;
      assert c1 in once <==> cell in cells;
    } else {
      assert cell !in back;
    }
  }

  lemma ReorderCellsInverse(cells: map<(Key, Date), Option<int>>, from: seq<string>, to: seq<string>)
    requires Reorderable(from, to) && forall cell :: cell in cells ==> |cell.0| == |from|
    ensures Reorderable(to, from)
    ensures ReorderCells(ReorderCells(cells, from, to), to, from) == cells
  {
    var back := ReorderCells(ReorderCells(cells, from, to), to, from);
    forall cell: (Key, Date)
      ensures cell in back <==> cell in cells
      ensures cell in cells ==> back[cell] == cells[cell]
    {
      ReorderCellsBack(cells, from, to, cell);
    }
    SameTables(back, cells);
  }

  /** Reordering a table into post's order and back gives the table it started from. */
  lemma ReorderTableInverse(t: Table, from: seq<string>, to: seq<string>)
    requires Reorderable(from, to) && Keyed(t, from)
    ensures Reorderable(to, from) && Keyed(ReorderTable(t, from, to), to)
    ensures ReorderTable(ReorderTable(t, from, to), to, from) == t
  {
    ReorderRowsInverse(t.rows, from, to);
    ReorderCellsInverse(t.cells, from, to);
  }

  /** Maps with the same keys and the same value at every key are equal. */
  lemma SameTables(a: map<(Key, Date), Option<int>>, b: map<(Key, Date), Option<int>>)
    requires forall cell :: cell in a <==> cell in b
    requires forall cell :: cell in a ==> a[cell] == b[cell]
    ensures a == b
  {
  }

  // ------------------------------------------------------------- difference

  /** The value a frame stores at a cell; `None` where it stores NaN or has no such cell. */
  function At(t: Table, k: Key, c: Date): Option<int>
  {
    if (k, c) in t.cells then t.cells[(k, c)] else None
  }

  /** The columns of `post.sub(pre)`: pre's when both lists are equal, otherwise their sorted union. */
  function AlignedColumns(a: seq<Date>, b: seq<Date>): (r: seq<Date>)
    ensures Elems(r) == Elems(a) + Elems(b)
    ensures a == b ==> r == a
    ensures a != b ==> Increasing(r)
  {
    if a == b then a else SortedUnion(a, b)
  }

  /** post.sub(pre): a value exactly where both sides store one, and then post's minus pre's. */
  function Difference(pre: Table, post: Table): (d: Table)
    ensures d.rows == pre.rows + post.rows
    ensures forall c :: c in d.cols <==> c in pre.cols || c in post.cols
    ensures d.cells.Keys == Cells(d.rows, d.cols)
    ensures forall k, c :: (k, c) in d.cells ==>
              (d.cells[(k, c)].Some? <==> At(pre, k, c).Some? && At(post, k, c).Some?)
    ensures forall k, c :: (k, c) in d.cells && d.cells[(k, c)].Some? ==>
              d.cells[(k, c)].value == At(post, k, c).value - At(pre, k, c).value
  {
    var rows := pre.rows + post.rows;
    var cols := AlignedColumns(pre.cols, post.cols);
    assert forall c :: c in cols <==> c in Elems(cols);
    Frame(rows, cols,
          map cell | cell in Cells(rows, cols) ::
            if At(pre, cell.0, cell.1).Some? && At(post, cell.0, cell.1).Some?
            then Some(At(post, cell.0, cell.1).value - At(pre, cell.0, cell.1).value)
            else None)
  }

  /** Swapping the sides negates every value and leaves the same cells missing. */
  lemma DifferenceAntisymmetric(pre: Table, post: Table, k: Key, c: Date)
    requires (k, c) in Difference(pre, post).cells
    ensures (k, c) in Difference(post, pre).cells
    ensures Difference(pre, post).cells[(k, c)].Some? <==> Difference(post, pre).cells[(k, c)].Some?
    ensures Difference(pre, post).cells[(k, c)].Some? ==>
              Difference(pre, post).cells[(k, c)].value == - Difference(post, pre).cells[(k, c)].value
  {
    var d, e := Difference(pre, post), Difference(post, pre);
    assert c in d.cols;
    assert c in e.cols;
  }

  // ---------------------------------------------------------------- reasons

  /** A cell of an object-typed frame: a number, a NaN or a string. */
  datatype Entry = Number(n: int) | NaN | Text(s: string)

  /**
   * What the reason table says about a missing cell, by precedence: a column
   * one side lacks, then a row one side lacks, then a value only one side
   * stores, and otherwise "." (missing on both sides).
   */
  function Reason(prePosition: string, postPosition: string, pre: Table, post: Table, k: Key, c: Date): string
  {
    if c !in post.cols then "Date not in " + postPosition
    else if c !in pre.cols then "Date not in " + prePosition
    else if k !in pre.rows then "Series not in " + prePosition
    else if k !in post.rows then "Series not in " + postPosition
    else if At(pre, k, c).None? && At(post, k, c).Some? then "Missing in " + prePosition
    else if At(post, k, c).None? && At(pre, k, c).Some? then "Missing in " + postPosition
    else "."
  }

  /** The reason table: the reason at every missing cell of the difference, Python's `str(nan)` elsewhere. */
  function Reasons(prePosition: string, postPosition: string, pre: Table, post: Table): Frame<Date, string>
  {
    var d := Difference(pre, post);
    Frame(d.rows, d.cols,
          map cell | cell in d.cells :: if d.cells[cell].None? then Reason(prePosition, postPosition, pre, post, cell.0, cell.1) else "nan")
  }

  /**
   * The reason table holds a reason exactly at the missing cells of the
   * difference, and "." exactly where both sides lack a value for a row and
   * a column both have.
   */
  lemma ReasonsAtMissingCells(prePosition: string, postPosition: string, pre: Table, post: Table, k: Key, c: Date)
    requires (k, c) in Difference(pre, post).cells
    ensures (k, c) in Reasons(prePosition, postPosition, pre, post).cells
    ensures var r := Reasons(prePosition, postPosition, pre, post).cells[(k, c)];
            Difference(pre, post).cells[(k, c)].Some? ==> r == "nan"
    ensures var r := Reasons(prePosition, postPosition, pre, post).cells[(k, c)];
            Difference(pre, post).cells[(k, c)].None? ==>
              (r == "." <==> c in pre.cols && c in post.cols && k in pre.rows && k in post.rows
                             && At(pre, k, c).None? && At(post, k, c).None?)
  {
    var d := Difference(pre, post);
    assert c in d.cols;
  }

  /** Every cell of `cells` in `mask` set to the string `s`: a masked assignment of pandas. */
  function Overwrite(cells: map<(Key, Date), Entry>, mask: set<(Key, Date)>, s: string): (r: map<(Key, Date), Entry>)
    ensures r.Keys == cells.Keys
    ensures forall cell :: cell in r ==> r[cell] == if cell in mask then Text(s) else cells[cell]
  {
    map cell | cell in cells :: if cell in mask then Text(s) else cells[cell]
  }

  /** fillna(s). */
  function FillNaN(cells: map<(Key, Date), Entry>, s: string): (r: map<(Key, Date), Entry>)
    ensures r.Keys == cells.Keys
    ensures forall cell :: cell in r ==> r[cell] == if cells[cell] == NaN then Text(s) else cells[cell]
  {
    map cell | cell in cells :: if cells[cell] == NaN then Text(s) else cells[cell]
  }

  /** astype(str) on a cell that holds a string or NaN. */
  function Show(e: Entry): string
  {
    match e
    case Text(s) => s
    case _ => "nan"
  }

  /** The six masked assignments of _calc_difference, in the order the code makes them. */
  datatype Assignment = LeftOnlyRows | RightOnlyRows | DatesNotInPre | DatesNotInPost | MissingInPre | MissingInPost

  const Assignments: seq<Assignment> := [LeftOnlyRows, RightOnlyRows, DatesNotInPre, DatesNotInPost, MissingInPre, MissingInPost]

  /**
   * `pre.isna()` masked by `post.isna()`: the cell is in both frames, `a`
   * stores NaN there and `b` a value.
   */
  predicate MissingOn(a: Table, b: Table, cell: (Key, Date))
  {
    cell.0 in a.rows && cell.0 in b.rows && cell.1 in a.cols && cell.1 in b.cols
    && At(a, cell.0, cell.1).None? && At(b, cell.0, cell.1).Some?
  }

  /** The cells an assignment's mask selects. */
  predicate Hits(a: Assignment, pre: Table, post: Table, cell: (Key, Date))
  {
    match a
    case LeftOnlyRows => cell.0 in pre.rows && cell.0 !in post.rows
    case RightOnlyRows => cell.0 !in pre.rows && cell.0 in post.rows
    case DatesNotInPre => cell.1 !in pre.cols
    case DatesNotInPost => cell.1 !in post.cols
    case MissingInPre => MissingOn(pre, post, cell)
    case MissingInPost => MissingOn(post, pre, cell)
  }

  /** The string an assignment writes. */
  function Label(a: Assignment, prePosition: string, postPosition: string): string
  {
    match a
    case LeftOnlyRows => "Series not in " + postPosition
    case RightOnlyRows => "Series not in " + prePosition
    case DatesNotInPre => "Date not in " + prePosition
    case DatesNotInPost => "Date not in " + postPosition
    case MissingInPre => "Missing in " + prePosition
    case MissingInPost => "Missing in " + postPosition
  }

  /** One masked assignment `diff_df[mask] = label` on the object-typed difference table. */
  function Assign(work: map<(Key, Date), Entry>, a: Assignment, prePosition: string, postPosition: string, pre: Table, post: Table)
    : map<(Key, Date), Entry>
  {
    Overwrite(work, (set cell | cell in work && Hits(a, pre, post, cell)), Label(a, prePosition, postPosition))
  }

  /** The difference table's cell as an object: its number, or NaN. */
  function Numeric(d: Table, cell: (Key, Date)): Entry
  {
    if cell in d.cells && d.cells[cell].Some? then Number(d.cells[cell].value) else NaN
  }

  /** What a cell holds after the first `n` assignments: the label of the last one whose mask selects it. */
  function Written(n: nat, prePosition: string, postPosition: string, pre: Table, post: Table, cell: (Key, Date)): Entry
    requires n <= |Assignments|
  {
    if n == 0 then Numeric(Difference(pre, post), cell)
    else if Hits(Assignments[n - 1], pre, post, cell) then Text(Label(Assignments[n - 1], prePosition, postPosition))
    else Written(n - 1, prePosition, postPosition, pre, post, cell)
  }

  /** Each assignment moves the table from one stage to the next. */
  lemma AssignStep(work: map<(Key, Date), Entry>, n: nat, prePosition: string, postPosition: string, pre: Table, post: Table)
    requires n < |Assignments|
    requires forall cell :: cell in work ==> work[cell] == Written(n, prePosition, postPosition, pre, post, cell)
    ensures var next := Assign(work, Assignments[n], prePosition, postPosition, pre, post);
            next.Keys == work.Keys
            && forall cell :: cell in next ==> next[cell] == Written(n + 1, prePosition, postPosition, pre, post, cell)
  {
  }

  /** fillna('.') on one cell. */
  function Filled(e: Entry): Entry
  {
    if e == NaN then Text(".") else e
  }

  /**
   * _calc_difference: the difference table, and the reason table built by
   * the six masked assignments in their order, in which the last write wins
   * (rows one side lacks, then columns one side lacks, then values one side
   * lacks), then fillna('.'), kept only at the missing cells of the difference.
   */
  method CalcDifference(prePosition: string, postPosition: string, pre: Table, post: Table)
    returns (diff: Table, nans: Frame<Date, string>)
    ensures diff == Difference(pre, post)
    ensures nans == Reasons(prePosition, postPosition, pre, post)
  {
    diff := Difference(pre, post);
    var work: map<(Key, Date), Entry> := map cell | cell in diff.cells :: Numeric(diff, cell);
    for n := 0 to |Assignments|
      invariant work.Keys == diff.cells.Keys
      invariant forall cell :: cell in work ==> work[cell] == Written(n, prePosition, postPosition, pre, post, cell)
    {
      AssignStep(work, n, prePosition, postPosition, pre, post);
      work := Assign(work, Assignments[n], prePosition, postPosition, pre, post);
    }
    nans := KeepMissing(diff, FillNaN(work, "."));
    ReasonsAgree(prePosition, postPosition, pre, post, work);
  }

  /** At a missing cell of the difference, the last write is the reason the precedence gives. */
  lemma LastWriteIsReason(prePosition: string, postPosition: string, pre: Table, post: Table, cell: (Key, Date))
    requires cell in Difference(pre, post).cells && Difference(pre, post).cells[cell].None?
    ensures Show(Filled(Written(6, prePosition, postPosition, pre, post, cell)))
            == Reason(prePosition, postPosition, pre, post, cell.0, cell.1)
  {
    var d := Difference(pre, post);
    assert cell.1 in d.cols;
    var w := seq(7, n requires 0 <= n <= 6 => Written(n, prePosition, postPosition, pre, post, cell));
    assert w[0] == NaN;
    assert w[6] == if MissingOn(post, pre, cell) then Text("Missing in " + postPosition) else w[5];
    assert w[5] == if MissingOn(pre, post, cell) then Text("Missing in " + prePosition) else w[4];
    assert w[4] == if cell.1 !in post.cols then Text("Date not in " + postPosition) else w[3];
    assert w[3] == if cell.1 !in pre.cols then Text("Date not in " + prePosition) else w[2];
    assert w[2] == if cell.0 !in pre.rows && cell.0 in post.rows then Text("Series not in " + prePosition) else w[1];
    assert w[1] == if cell.0 in pre.rows && cell.0 !in post.rows then Text("Series not in " + postPosition) else w[0];
  }

  /** `diff_df[nans].astype(str)`: the strings at the missing cells of the difference, "nan" elsewhere. */
  function KeepMissing(d: Table, filled: map<(Key, Date), Entry>): Frame<Date, string>
    requires filled.Keys == d.cells.Keys
  {
    Frame(d.rows, d.cols, map cell | cell in filled :: if d.cells[cell].None? then Show(filled[cell]) else "nan")
  }

  /** The reason table the code builds is the one the precedence specifies. */
  lemma ReasonsAgree(prePosition: string, postPosition: string, pre: Table, post: Table, work: map<(Key, Date), Entry>)
    requires work.Keys == Difference(pre, post).cells.Keys
    requires forall cell :: cell in work ==> work[cell] == Written(6, prePosition, postPosition, pre, post, cell)
    ensures KeepMissing(Difference(pre, post), FillNaN(work, ".")) == Reasons(prePosition, postPosition, pre, post)
  {
    var d := Difference(pre, post);
    var filled := FillNaN(work, ".");
    var built := KeepMissing(d, filled).cells;
    var spec := Reasons(prePosition, postPosition, pre, post).cells;
    assert built.Keys == filled.Keys == d.cells.Keys == spec.Keys;
    forall cell | cell in built
      ensures built[cell] == spec[cell]
    {
      if d.cells[cell].None? {
        assert built[cell] == Show(filled[cell]);
        assert filled[cell] == Filled(work[cell]);
        LastWriteIsReason(prePosition, postPosition, pre, post, cell);
      }
    }
    SameMaps(built, spec);
  }

  /** Maps with the same keys and the same value at every key are equal. */
  lemma SameMaps(a: map<(Key, Date), string>, b: map<(Key, Date), string>)
    requires a.Keys == b.Keys && forall cell :: cell in a ==> a[cell] == b[cell]
    ensures a == b
  {
  }

  // ------------------------------------------------------------ differences

  /**
   * _check_differences: the column lists differ (order counts), the sets of
   * row labels differ, or some cell differs.
   */
  function CheckDifferences(pre: Table, post: Table): (r: bool)
    ensures !r <==> pre == post
  {
    pre.cols != post.cols || pre.rows != post.rows || pre.cells != post.cells
  }

  // ------------------------------------------------------------ the loop

  /** The metadata of one position's visualisation that a comparison reads. */
  datatype VisMeta = VisMeta(dimensions: seq<string>, periodicities: seq<Periodicity>)

  /** What one periodicity's comparison stores: the two tables and its attributes. */
  datatype SavedPeriod = SavedPeriod(diff: Table, nans: Frame<Date, string>, periodicities: seq<Periodicity>, different: bool)

  /** The attributes save_metadata stores for the whole visualisation. */
  datatype Summary = Summary(periodicities: seq<Periodicity>, differences: bool)

  /** The visualisation frames of the store, by position, visualisation name and periodicity. */
  type Frames = map<(string, string, Periodicity), Table>

  /**
   * Comparison.__init__: a pair whose dimension sets differ cannot be
   * compared; otherwise the comparison is set up, already counting a
   * periodicity mismatch as a difference.
   */
  method NewComparison(prePosition: string, postPosition: string, item: ComparisonItem, preMeta: VisMeta, postMeta: VisMeta)
    returns (r: Result<Comparison, Fault>)
    ensures r.Err? <==> CheckDimensions(prePosition, postPosition, preMeta.dimensions, postMeta.dimensions).Err?
    ensures r.Err? ==> r == Err(CheckDimensions(prePosition, postPosition, preMeta.dimensions, postMeta.dimensions).error)
    ensures r.Ok? ==> fresh(r.value) && r.value.item == item && r.value.vis == item.name
    ensures r.Ok? ==> r.value.prePosition == prePosition && r.value.postPosition == postPosition
    ensures r.Ok? ==> r.value.preMeta == preMeta && r.value.postMeta == postMeta
    ensures r.Ok? ==> r.value.differences == !CheckPeriodicities(preMeta.periodicities, postMeta.periodicities)
    ensures r.Ok? ==> r.value.diffDims == (preMeta.dimensions != postMeta.dimensions)
    ensures r.Ok? ==> r.value.periodicities
                      == GetPeriodicitiesAsWritten(CheckPeriodicities(preMeta.periodicities, postMeta.periodicities),
                                                   preMeta.periodicities, postMeta.periodicities)
                      == postMeta.periodicities
    ensures r.Ok? ==> r.value.saved == map[] && r.value.summary.None?
  {
    AsWrittenComparesPost(preMeta.periodicities, postMeta.periodicities);
    var dims := CheckDimensions(prePosition, postPosition, preMeta.dimensions, postMeta.dimensions);
    if dims.Err? {
      return Err(dims.error);
    }
    var c := new Comparison(prePosition, postPosition, item, preMeta, postMeta, dims.value);
    return Ok(c);
  }

  /**
   * The two frames one periodicity of `vis` compares between two positions:
   * pre's and post's, read from the store (a missing one is a KeyError),
   * with pre's row labels put into post's dimension order when `diffDims`
   * says the orders differ (dimension lists that are not one another's
   * reordering make reorder_levels fail).
   */
  function PairOf(prePosition: string, postPosition: string, vis: string, preMeta: VisMeta, postMeta: VisMeta,
                  diffDims: bool, frames: Frames, per: Periodicity): Result<(Table, Table), Fault>
  {
    if (prePosition, vis, per) !in frames || (postPosition, vis, per) !in frames then Err(Unexpected("KeyError"))
    else
      var pre, post := frames[(prePosition, vis, per)], frames[(postPosition, vis, per)];
      if !diffDims then Ok((pre, post))
      else if !Reorderable(preMeta.dimensions, postMeta.dimensions) || !Keyed(pre, preMeta.dimensions) then
        Err(Unexpected("reorder_levels"))
      else Ok((ReorderTable(pre, preMeta.dimensions, postMeta.dimensions), post))
  }

  /** Whether a pair of frames was read and its two frames differ. */
  predicate Differs(pair: Result<(Table, Table), Fault>)
  {
    pair.Ok? && CheckDifferences(pair.value.0, pair.value.1)
  }

  /**
   * Whether comparing visualisation `vis` between two positions succeeds:
   * the dimension sets agree and every periodicity of the post position
   * can be paired.
   */
  predicate ComparePasses(prePosition: string, postPosition: string, vis: string, preMeta: VisMeta, postMeta: VisMeta,
                          frames: Frames)
  {
    var dims := CheckDimensions(prePosition, postPosition, preMeta.dimensions, postMeta.dimensions);
    && dims.Ok?
    && forall per :: per in postMeta.periodicities ==>
         PairOf(prePosition, postPosition, vis, preMeta, postMeta, dims.value, frames, per).Ok?
  }

  /**
   * Whether a comparison that succeeds reports differences: the two
   * positions' periodicities disagree, or some periodicity's frames differ.
   */
  predicate CompareFinds(prePosition: string, postPosition: string, vis: string, preMeta: VisMeta, postMeta: VisMeta,
                         frames: Frames)
    requires CheckDimensions(prePosition, postPosition, preMeta.dimensions, postMeta.dimensions).Ok?
  {
    var diffDims := CheckDimensions(prePosition, postPosition, preMeta.dimensions, postMeta.dimensions).value;
    || !CheckPeriodicities(preMeta.periodicities, postMeta.periodicities)
    || exists per :: per in postMeta.periodicities
                     && Differs(PairOf(prePosition, postPosition, vis, preMeta, postMeta, diffDims, frames, per))
  }

  class Comparison {
    const prePosition: string
    const postPosition: string
    const item: ComparisonItem
    const vis: string
    const preMeta: VisMeta
    const postMeta: VisMeta
    /** _check_periodicities' result: true when the periodicity sets are equal. */
    const diffPers: bool
    /** Whether pre's row labels are reordered into post's dimension order. */
    const diffDims: bool
    const periodicities: seq<Periodicity>
    var differences: bool
    var saved: map<Periodicity, SavedPeriod>
    var summary: Option<Summary>

    /** The checks that cannot fail, with _check_dimensions' result passed in. */
    constructor (prePosition: string, postPosition: string, item: ComparisonItem, preMeta: VisMeta, postMeta: VisMeta, diffDims: bool)
      ensures this.prePosition == prePosition && this.postPosition == postPosition
      ensures this.item == item && vis == item.name && this.preMeta == preMeta && this.postMeta == postMeta
      ensures diffPers == CheckPeriodicities(preMeta.periodicities, postMeta.periodicities)
      ensures differences == !diffPers && this.diffDims == diffDims
      ensures periodicities == GetPeriodicitiesAsWritten(diffPers, preMeta.periodicities, postMeta.periodicities)
      ensures saved == map[] && summary.None?
    {
      this.prePosition := prePosition;
      this.postPosition := postPosition;
      this.item := item;
      vis := item.name;
      this.preMeta := preMeta;
      this.postMeta := postMeta;
      diffPers := CheckPeriodicities(preMeta.periodicities, postMeta.periodicities);
      differences := !CheckPeriodicities(preMeta.periodicities, postMeta.periodicities);
      this.diffDims := diffDims;
      periodicities := GetPeriodicitiesAsWritten(CheckPeriodicities(preMeta.periodicities, postMeta.periodicities),
                                                 preMeta.periodicities, postMeta.periodicities);
      saved := map[];
      summary := None;
    }

    /**
     * The two frames one periodicity compares: pre's and post's, read from
     * the store (a missing one is a KeyError), with pre's row labels put into
     * post's dimension order when the orders differ (dimension lists that are
     * not one another's reordering make reorder_levels fail).
     */
    function Pair(frames: Frames, per: Periodicity): (r: Result<(Table, Table), Fault>)
      ensures (prePosition, vis, per) !in frames || (postPosition, vis, per) !in frames ==> r == Err(Unexpected("KeyError"))
      ensures r.Err? ==> r.error.Unexpected?
    {
      PairOf(prePosition, postPosition, vis, preMeta, postMeta, diffDims, frames, per)
    }

    /** Whether one periodicity's frames differ. */
    predicate Changed(frames: Frames, per: Periodicity)
    {
      Differs(Pair(frames, per))
    }

    /** The running flag after the first `n` periodicities, `start` being the flag before the loop. */
    function Running(frames: Frames, n: nat, start: bool): bool
      requires n <= |periodicities|
    {
      if n == 0 then start else Running(frames, n - 1, start) || Changed(frames, periodicities[n - 1])
    }

    /** The running flag is the OR of the starting flag and the changes so far. */
    lemma {:induction false} RunningIsOr(frames: Frames, n: nat, start: bool)
      requires n <= |periodicities|
      ensures Running(frames, n, start) == (start || exists j :: 0 <= j < n && Changed(frames, periodicities[j]))
    {
      if n > 0 {
        RunningIsOr(frames, n - 1, start);
      }
    }

    /** What the `i`-th periodicity's comparison stores, `start` being the flag before the loop. */
    function Record(frames: Frames, i: nat, start: bool): SavedPeriod
      requires i < |periodicities| && Pair(frames, periodicities[i]).Ok?
    {
      var (pre, post) := Pair(frames, periodicities[i]).value;
      SavedPeriod(Difference(pre, post), Reasons(prePosition, postPosition, pre, post), periodicities,
                  Running(frames, i + 1, start))
    }

    /** One iteration of compare keeps the loop's account of what it stored. */
    lemma StoreStep(frames: Frames, i: nat, start: bool, records: seq<SavedPeriod>,
                    pre: Table, post: Table, record: SavedPeriod)
      requires i < |periodicities| && Pair(frames, periodicities[i]) == Ok((pre, post))
      requires |records| == i && forall j :: 0 <= j < i ==> Pair(frames, periodicities[j]).Ok? && records[j] == Record(frames, j, start)
      requires record == SavedPeriod(Difference(pre, post), Reasons(prePosition, postPosition, pre, post), periodicities,
                                     Running(frames, i, start) || CheckDifferences(pre, post))
      ensures record.different == Running(frames, i + 1, start)
      ensures forall j :: 0 <= j <= i ==> Pair(frames, periodicities[j]).Ok? && (records + [record])[j] == Record(frames, j, start)
    {
      assert record == Record(frames, i, start);
    }

    /**
     * compare: each periodicity's difference and reason tables are stored
     * with the running `differences` flag; afterwards the flag is the OR of
     * the flag set up by the constructor and every periodicity's change, it is
     * stored for the whole visualisation and the item shows it. The first
     * periodicity whose frames cannot be paired stops the loop with its error
     * (what the loop stored before it stays stored, and the flag counts it).
     */
    method Compare(frames: Frames) returns (r: Outcome<Fault>)
      modifies this`differences, this`saved, this`summary, item`msg
      ensures r.Fail? <==> exists i :: 0 <= i < |periodicities| && Pair(frames, periodicities[i]).Err?
      ensures r.Fail? ==> exists i :: 0 <= i < |periodicities| && Pair(frames, periodicities[i]) == Err(r.error)
                                      && ComparedBefore(this, frames, i, old(differences), old(saved), differences, saved)
      ensures r.Fail? ==> summary == old(summary) && item.msg == old(item.msg)
      ensures r.Pass? ==> Compared(this, frames, old(differences), old(saved), differences, saved)
      ensures r.Pass? ==> summary == Some(Summary(periodicities, differences))
      ensures r.Pass? ==> item.msg == if differences then DifferencesFound else NoDifferences
    {
      var outcome, flag, records := ComparePeriods(this, frames, differences);
      ghost var saved0 := saved;
      saved := Store(saved, periodicities[..|records|], records);
      differences := flag;
      if outcome.Fail? {
        StoreLast(saved0, periodicities[..|records|], records);
        assert ComparedBefore(this, frames, |records|, old(differences), saved0, differences, saved);
        return outcome;
      }
      assert periodicities[..|records|] == periodicities;
      StoreLast(saved0, periodicities, records);
      summary := Some(Summary(periodicities, differences));
      item.UpdateDiffs(differences);
      return Pass;
    }
  }

  /**
   * The outcome of the loop: every periodicity was paired, the flag is the
   * OR of the starting flag and every periodicity's change, and each
   * periodicity's stored record is the one its last comparison made.
   */
  predicate Compared(c: Comparison, frames: Frames, start: bool, saved0: map<Periodicity, SavedPeriod>,
                     differences: bool, saved: map<Periodicity, SavedPeriod>)
  {
    && (forall i :: 0 <= i < |c.periodicities| ==> c.Pair(frames, c.periodicities[i]).Ok?)
    && differences == (start || exists i :: 0 <= i < |c.periodicities| && c.Changed(frames, c.periodicities[i]))
    && saved.Keys == saved0.Keys + Elems(c.periodicities)
    && forall i {:trigger LastOf(c.periodicities, i)} :: 0 <= i < |c.periodicities| && LastOf(c.periodicities, i) ==>
         c.Record(frames, i, start) == saved[c.periodicities[i]]
  }

  /**
   * What the loop leaves when the `n`-th periodicity cannot be paired: the
   * first `n` were paired, the flag is the OR of the starting flag and their
   * changes, and each of them that is the last of its periodicity among the
   * first `n` is stored with the record its comparison made.
   */
  predicate ComparedBefore(c: Comparison, frames: Frames, n: nat, start: bool, saved0: map<Periodicity, SavedPeriod>,
                           differences: bool, saved: map<Periodicity, SavedPeriod>)
  {
    && n <= |c.periodicities|
    && (forall i :: 0 <= i < n ==> c.Pair(frames, c.periodicities[i]).Ok?)
    && differences == (start || exists i :: 0 <= i < n && c.Changed(frames, c.periodicities[i]))
    && saved.Keys == saved0.Keys + Elems(c.periodicities[..n])
    && forall i {:trigger LastOf(c.periodicities[..n], i)} :: 0 <= i < n && LastOf(c.periodicities[..n], i) ==>
         c.Record(frames, i, start) == saved[c.periodicities[i]]
  }

  /** Every position of a list has a last position holding the same periodicity. */
  lemma {:induction false} HasLast(periods: seq<Periodicity>, i: nat) returns (j: nat)
    requires i < |periods|
    ensures i <= j < |periods| && periods[j] == periods[i] && LastOf(periods, j)
    decreases |periods| - i
  {
    if k :| i < k < |periods| && periods[k] == periods[i] {
      j := HasLast(periods, k);
    } else {
      j := i;
    }
  }

  /**
   * A comparison that found no difference at all stores every periodicity
   * it compared with its `different` flag off.
   */
  lemma NoDifferenceNoneDifferent(c: Comparison, frames: Frames, start: bool, saved0: map<Periodicity, SavedPeriod>,
                                  saved: map<Periodicity, SavedPeriod>)
    requires Compared(c, frames, start, saved0, false, saved)
    ensures forall per :: per in c.periodicities ==> per in saved && !saved[per].different
  {
    forall per | per in c.periodicities
      ensures per in saved && !saved[per].different
    {
      var i :| 0 <= i < |c.periodicities| && c.periodicities[i] == per;
      var j := HasLast(c.periodicities, i);
      assert c.Record(frames, j, start) == saved[per];
      c.RunningIsOr(frames, j + 1, start);
    }
  }

  /**
   * The reads at the start of one iteration of compare: pre's frame, post's
   * frame, and pre's row labels put into post's dimension order when the
   * orders differ.
   */
  method ReadPair(c: Comparison, frames: Frames, per: Periodicity) returns (r: Result<(Table, Table), Fault>)
    ensures r == c.Pair(frames, per)
  {
    var preKey, postKey := (c.prePosition, c.vis, per), (c.postPosition, c.vis, per);
    if preKey !in frames || postKey !in frames {
      return Err(Unexpected("KeyError"));
    }
    var pre, post := frames[preKey], frames[postKey];
    if c.diffDims {
      if !Reorderable(c.preMeta.dimensions, c.postMeta.dimensions) || !Keyed(pre, c.preMeta.dimensions) {
        return Err(Unexpected("reorder_levels"));
      }
      pre := ReorderTable(pre, c.preMeta.dimensions, c.postMeta.dimensions);
    }
    return Ok((pre, post));
  }

  /**
   * The loop of compare over the periodicities, on values: the records it
   * stores, one per periodicity compared, each with the running flag; the
   * flag after the last; or, after the records made before it, the error of
   * the first periodicity whose frames cannot be paired.
   */
  method ComparePeriods(c: Comparison, frames: Frames, start: bool)
    returns (r: Outcome<Fault>, differences: bool, records: seq<SavedPeriod>)
    ensures |records| <= |c.periodicities|
    ensures forall j :: 0 <= j < |records| ==> c.Pair(frames, c.periodicities[j]).Ok? && records[j] == c.Record(frames, j, start)
    ensures r.Fail? ==> |records| < |c.periodicities| && c.Pair(frames, c.periodicities[|records|]) == Err(r.error)
    ensures r.Pass? ==> |records| == |c.periodicities|
    ensures differences == (start || exists j :: 0 <= j < |records| && c.Changed(frames, c.periodicities[j]))
  {
    differences, records := start, [];
    var pers := c.periodicities;
    for i := 0 to |pers|
      invariant differences == c.Running(frames, i, start)
      invariant |records| == i
      invariant forall j :: 0 <= j < i ==> c.Pair(frames, pers[j]).Ok? && records[j] == c.Record(frames, j, start)
    {
      var pair := ReadPair(c, frames, pers[i]);
      if pair.Err? {
        c.RunningIsOr(frames, i, start);
        return Fail(pair.error), differences, records;
      }
      var (pre, post) := pair.value;
      var diff, nans := CalcDifference(c.prePosition, c.postPosition, pre, post);
      if CheckDifferences(pre, post) {
        differences := true;
      }
      var record := SavedPeriod(diff, nans, pers, differences);
      c.StoreStep(frames, i, start, records, pre, post, record);
      records := records + [record];
    }
    c.RunningIsOr(frames, |pers|, start);
    r := Pass;
  }

  /** `m` with `pers[j] := records[j]` stored in order: a later record replaces an earlier one of the same periodicity. */
  function Store<V>(m: map<Periodicity, V>, pers: seq<Periodicity>, records: seq<V>): map<Periodicity, V>
    requires |records| == |pers|
  {
    if |pers| == 0 then m
    else Store(m, pers[..|pers| - 1], records[..|pers| - 1])[pers[|pers| - 1] := records[|pers| - 1]]
  }

  /** After storing, every periodicity holds the record of its last position. */
  lemma {:induction false} StoreLast<V>(m: map<Periodicity, V>, pers: seq<Periodicity>, records: seq<V>)
    requires |records| == |pers|
    ensures Store(m, pers, records).Keys == m.Keys + Elems(pers)
    ensures forall j {:trigger LastOf(pers, j)} :: 0 <= j < |pers| && LastOf(pers, j) ==> Store(m, pers, records)[pers[j]] == records[j]
  {
    if |pers| > 0 {
      var n := |pers| - 1;
      StoreLast(m, pers[..n], records[..n]);
      assert Elems(pers) == Elems(pers[..n]) + {pers[n]} by {
        assert pers == pers[..n] + [pers[n]];
      }
      forall j | 0 <= j < |pers| && LastOf(pers, j)
        ensures Store(m, pers, records)[pers[j]] == records[j]
      {
        if j < n {
          assert LastOf(pers[..n], j);
        }
      }
    }
  }
}
