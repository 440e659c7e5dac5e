/**
 * The values the program moves between its stages: periodicities, the dates that
 * label a visualisation's columns, and labelled two-dimensional frames (pandas
 * DataFrames whose row index is a tuple of dimension values).
 */
module Tables {
  import opened Wrappers

  /** The three periodicities; the program writes them as 'A', 'Q' and 'M'. */
  datatype Periodicity = Annual | Quarterly | Monthly

  function Code(p: Periodicity): string
  {
    match p
    case Annual => "A"
    case Quarterly => "Q"
    case Monthly => "M"
  }

  /** A calendar date; column labels are always the first day of a month. */
  datatype Date = Date(year: int, month: int, day: int)

  predicate Before(a: Date, b: Date)
  {
    a.year < b.year
    || (a.year == b.year && (a.month < b.month || (a.month == b.month && a.day < b.day)))
  }

  predicate NotAfter(a: Date, b: Date) { a == b || Before(a, b) }

  predicate Increasing(s: seq<Date>)
  {
    forall i, j :: 0 <= i < j < |s| ==> Before(s[i], s[j])
  }

  predicate Distinct<T(==)>(s: seq<T>)
  {
    forall i, j :: 0 <= i < j < |s| ==> s[i] != s[j]
  }

  function Elems<T>(s: seq<T>): set<T> { set x | x in s }

  /** `x` put into its place in an increasing sequence, unless it is there already. */
  function Insert(x: Date, s: seq<Date>): (r: seq<Date>)
    requires Increasing(s)
    ensures Increasing(r)
    ensures Elems(r) == Elems(s) + {x}
  {
    if |s| == 0 then [x]
    else if x == s[0] then s
    else if Before(x, s[0]) then
      assert Elems([x] + s) == {x} + Elems(s);
      [x] + s
    else
      var rest := Insert(x, s[1..]);
      assert Elems(s) == {s[0]} + Elems(s[1..]);
      assert forall j :: 0 <= j < |rest| ==> Before(s[0], rest[j]) by {
        forall j | 0 <= j < |rest| ensures Before(s[0], rest[j]) {
          assert rest[j] in Elems(rest);
        }
      }
      assert Elems([s[0]] + rest) == {s[0]} + Elems(rest);
      [s[0]] + rest
  }

  /**
   * The labels of `a` and `b` together, each once, in increasing order: the
   * column index pandas builds when it aligns two frames whose columns differ.
   */
  function SortedUnion(a: seq<Date>, b: seq<Date>): (r: seq<Date>)
    ensures Increasing(r) && Distinct(r)
    ensures Elems(r) == Elems(a) + Elems(b)
    decreases |a| + |b|
  {
    if |a| + |b| == 0 then []
    else if |b| > 0 then
      assert Elems(b) == Elems(b[..|b| - 1]) + {b[|b| - 1]};
      Insert(b[|b| - 1], SortedUnion(a, b[..|b| - 1]))
    else
      assert Elems(a) == Elems(a[..|a| - 1]) + {a[|a| - 1]};
      Insert(a[|a| - 1], SortedUnion(a[..|a| - 1], b))
  }

  /** One level of a row label; `None` is a missing (NaN) value. */
  type Level = Option<string>

  /** A row label: one level per dimension. */
  type Key = seq<Level>

  /** A frame: a set of row labels, a sequence of column labels and one value per cell. */
  datatype Frame<C(==), V> = Frame(rows: set<Key>, cols: seq<C>, cells: map<(Key, C), V>)

  function Cells<C(==)>(rows: set<Key>, cols: seq<C>): set<(Key, C)>
  {
    set k, c | k in rows && c in cols :: (k, c)
  }

  /** Every row and column meet in exactly one cell, and no column label repeats. */
  predicate Valid<C(==), V>(f: Frame<C, V>)
  {
    Distinct(f.cols) && f.cells.Keys == Cells(f.rows, f.cols)
  }

  /** A visualisation's data for one periodicity; `None` is a missing (NaN) value. */
  type Table = Frame<Date, Option<int>>
}
