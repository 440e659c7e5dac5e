/**
 * The compare page: the split of two positions' visualisations into common
 * and one-sided items, the list of comparison items under its select-all
 * row, the enabling of the compare and export buttons, the locking of the
 * page while work is under way, and the workers that compare or export one
 * item.
 */
module CompareUi {
  import opened Wrappers
  import opened Tables
  import opened CompareItems
  import opened Comparisons
  import opened Exports
  import Visualisations

  // -------------------------------------------------------------- positions

  /** The names of `xs`, in their order, that are in `ys` (when `inside`) or are not. */
  function Keep(xs: seq<string>, ys: seq<string>, inside: bool): (r: seq<string>)
    ensures forall x :: x in r <==> x in xs && ((x in ys) == inside)
    ensures |r| <= |xs|
    ensures (forall i :: 0 <= i < |xs| ==> (xs[i] in ys) == inside) ==> r == xs
    ensures (forall i :: 0 <= i < |xs| ==> (xs[i] in ys) != inside) ==> r == []
  {
    if |xs| == 0 then []
    else
      var rest := Keep(xs[1..], ys, inside);
      assert xs == [xs[0]] + xs[1..];
      if (xs[0] in ys) == inside then [xs[0]] + rest else rest
  }

  /** Keep filters a list piece by piece: what it keeps of two lists joined is what it keeps of each, in order. */
  lemma {:induction false} KeepConcat(xs1: seq<string>, xs2: seq<string>, ys: seq<string>, inside: bool)
    ensures Keep(xs1 + xs2, ys, inside) == Keep(xs1, ys, inside) + Keep(xs2, ys, inside)
  {
    if |xs1| > 0 {
      assert (xs1 + xs2)[1..] == xs1[1..] + xs2;
      KeepConcat(xs1[1..], xs2, ys, inside);
    } else {
      assert xs1 + xs2 == xs2;
    }
  }

  /** The visualisations of two positions, split as load_visualisations splits them. */
  datatype Split = Split(common: seq<string>, preOnly: seq<string>, postOnly: seq<string>)

  /**
   * load_visualisations' split: the common visualisations in post's order,
   * then those only pre has and those only post has.
   */
  function Partition(pre: seq<string>, post: seq<string>): (s: Split)
    ensures forall x :: x in s.common <==> x in pre && x in post
    ensures forall x :: x in s.preOnly <==> x in pre && x !in post
    ensures forall x :: x in s.postOnly <==> x in post && x !in pre
  {
    Split(Keep(post, pre, true), Keep(pre, post, false), Keep(post, pre, false))
  }

  /** When both positions hold the same visualisations, every one of them is common, in post's order. */
  lemma PartitionSame(pre: seq<string>, post: seq<string>)
    requires forall x :: x in pre <==> x in post
    ensures Partition(pre, post) == Split(post, [], [])
  {
    assert forall i :: 0 <= i < |pre| ==> pre[i] in post;
    assert forall i :: 0 <= i < |post| ==> post[i] in pre;
  }

  // ---------------------------------------------------------- check states

  /** What the select-all logic reads of an item: its state and its check state. */
  datatype Row = Row(state: ItemState, check: CheckState)

  /** An item whose check box counts: one that is not LONELY. */
  predicate Checkable(r: Row) { r.state != Lonely }

  /** `checkState()` is truthy: the item is checked or partially checked. */
  predicate Ticked(r: Row) { r.check != Unchecked }

  /** `len(checkable)`. */
  function CheckableCount(rows: seq<Row>): nat
  {
    if |rows| == 0 then 0 else (if Checkable(rows[0]) then 1 else 0) + CheckableCount(rows[1..])
  }

  /** `len(checked)`: the checkable items whose check state is truthy. */
  function TickedCount(rows: seq<Row>): (n: nat)
    ensures n <= CheckableCount(rows)
  {
    if |rows| == 0 then 0 else (if Checkable(rows[0]) && Ticked(rows[0]) then 1 else 0) + TickedCount(rows[1..])
  }

  predicate AllTicked(rows: seq<Row>)
  {
    forall i :: 0 <= i < |rows| && Checkable(rows[i]) ==> Ticked(rows[i])
  }

  predicate AnyTicked(rows: seq<Row>)
  {
    exists i :: 0 <= i < |rows| && Checkable(rows[i]) && Ticked(rows[i])
  }

  /** The two counts agree exactly when every checkable item is ticked. */
  lemma {:induction false} CountsAgree(rows: seq<Row>)
    ensures TickedCount(rows) == CheckableCount(rows) <==> AllTicked(rows)
  {
    if |rows| > 0 {
      CountsAgree(rows[1..]);
      assert forall i :: 1 <= i < |rows| ==> rows[1..][i - 1] == rows[i];
      if AllTicked(rows) {
        assert AllTicked(rows[1..]);
      }
    }
  }

  /** The ticked count is positive exactly when some checkable item is ticked. */
  lemma {:induction false} CountPositive(rows: seq<Row>)
    ensures TickedCount(rows) > 0 <==> AnyTicked(rows)
  {
    if |rows| > 0 {
      CountPositive(rows[1..]);
      assert forall i :: 1 <= i < |rows| ==> rows[1..][i - 1] == rows[i];
      if TickedCount(rows[1..]) > 0 {
        var i :| 0 <= i < |rows[1..]| && Checkable(rows[1..][i]) && Ticked(rows[1..][i]);
        assert Checkable(rows[i + 1]) && Ticked(rows[i + 1]);
      }
    }
  }

  /**
   * select_all_check when the select-all row itself was toggled: unless
   * every checkable item is already ticked, every one becomes checked, and
   * otherwise every one becomes unchecked; the select-all row follows.
   */
  function SelectAllToggled(rows: seq<Row>): (c: CheckState)
    ensures c == Checked <==> !AllTicked(rows)
    ensures c == Unchecked <==> AllTicked(rows)
  {
    CountsAgree(rows);
    if TickedCount(rows) < CheckableCount(rows) then Checked else Unchecked
  }

  /**
   * select_all_check when an item was toggled to `now`: an unchecked item
   * leaves the select-all row partial while some item is still ticked, and
   * unchecked otherwise; a checked item makes it checked when every item is
   * ticked, and partial otherwise; a partial item leaves it at `current`.
   */
  function SelectAllFollows(rows: seq<Row>, now: CheckState, current: CheckState): (c: CheckState)
    ensures now == Unchecked ==> (c == PartiallyChecked <==> AnyTicked(rows)) && (c == Unchecked <==> !AnyTicked(rows))
    ensures now == Checked ==> (c == Checked <==> AllTicked(rows)) && (c == PartiallyChecked <==> !AllTicked(rows))
    ensures now == PartiallyChecked ==> c == current
  {
    CountsAgree(rows);
    CountPositive(rows);
    match now
    case Unchecked => if TickedCount(rows) > 0 then PartiallyChecked else Unchecked
    case Checked => if TickedCount(rows) < CheckableCount(rows) then PartiallyChecked else Checked
    case PartiallyChecked => current
  }

  /** toggle_item_check's new check state: unchecked or partial becomes checked, checked becomes unchecked. */
  function Toggle(c: CheckState): (r: CheckState)
    ensures r != PartiallyChecked && r != c
  {
    if c == Checked then Unchecked else Checked
  }

  // ---------------------------------------------------------------- buttons

  /** get_checked_items' State column: the states of the items whose check state is 2, in their order. */
  function CheckedStates(rows: seq<Row>): (r: seq<ItemState>)
  {
    if |rows| == 0 then []
    else (if rows[0].check == Checked then [rows[0].state] else []) + CheckedStates(rows[1..])
  }

  /** A state is among the checked states exactly when some checked item is in it. */
  lemma {:induction false} CheckedStatesHold(rows: seq<Row>)
    ensures forall i :: 0 <= i < |rows| && rows[i].check == Checked ==> rows[i].state in CheckedStates(rows)
    ensures forall s :: s in CheckedStates(rows) ==> exists i :: 0 <= i < |rows| && rows[i].check == Checked && rows[i].state == s
  {
    if |rows| > 0 {
      var rest := CheckedStates(rows[1..]);
      CheckedStatesHold(rows[1..]);
      assert CheckedStates(rows) == (if rows[0].check == Checked then [rows[0].state] else []) + rest;
      forall i | 1 <= i < |rows| && rows[i].check == Checked
        ensures rows[i].state in CheckedStates(rows)
      {
        assert rows[1..][i - 1] == rows[i];
      }
      forall s | s in CheckedStates(rows)
        ensures exists i :: 0 <= i < |rows| && rows[i].check == Checked && rows[i].state == s
      {
        if !(rows[0].check == Checked && rows[0].state == s) {
          assert s in rest;
          var i :| 0 <= i < |rows[1..]| && rows[1..][i].check == Checked && rows[1..][i].state == s;
          assert rows[i + 1].check == Checked && rows[i + 1].state == s;
        }
      }
    }
  }

  /** Whether the compare and the export buttons are enabled. */
  datatype Buttons = Buttons(compareOn: bool, exportOn: bool)

  /**
   * manage_ui_states: with nothing checked, or a checked item that failed,
   * neither button is enabled; when every checked item is already compared
   * only export is; otherwise only compare is.
   */
  function ButtonStates(rows: seq<Row>): (b: Buttons)
    ensures !(b.compareOn && b.exportOn)
    ensures b.exportOn <==> ((exists i :: 0 <= i < |rows| && rows[i].check == Checked)
                             && forall i :: 0 <= i < |rows| && rows[i].check == Checked ==> rows[i].state == Success)
    ensures b.compareOn <==> ((exists i :: 0 <= i < |rows| && rows[i].check == Checked && rows[i].state != Success)
                              && forall i :: 0 <= i < |rows| && rows[i].check == Checked ==> rows[i].state != Failure)
  {
    var states := CheckedStates(rows);
    CheckedStatesHold(rows);
    if |states| == 0 || Failure in states then Buttons(false, false)
    else if forall s :: s in states ==> s == Success then
      assert states[0] in states;
      Buttons(false, true)
    else
      assert exists s :: s in states && s != Success;
      Buttons(true, false)
  }

  /** try_unlock's scan: no item is PROCESSING, EXPORTING or QUEUED. */
  predicate Settled(rows: seq<Row>)
  {
    forall i :: 0 <= i < |rows| ==> rows[i].state != Processing && rows[i].state != Exporting && rows[i].state != Queued
  }

  // ------------------------------------------------------------------- list

  /**
   * The item create builds for `vis`: a common visualisation is checked,
   * and already compared when the store holds its comparison, whose stored
   * flag its message shows; any other is LONELY, disabled and missing in the
   * position that lacks it.
   */
  predicate Made(item: ComparisonItem, vis: string, preName: string, postName: string,
                 common: seq<string>, post: seq<string>, existing: seq<string>, differences: map<string, bool>)
    reads item
  {
    && item.name == vis && item.tooltip == "" && item.selectable
    && (vis in common ==>
          && item.check == Checked && item.enabled
          && (vis in existing ==> vis in differences && item.state == Success
                                  && item.msg == (if differences[vis] then DifferencesFound else NoDifferences))
          && (vis !in existing ==> item.state == Idle && item.msg == ""))
    && (vis !in common ==>
          && item.state == Lonely && item.check == Unchecked && !item.enabled
          && item.msg == "Missing in " + (if vis in post then preName else postName))
  }

  /** The body of create's loop for `vis`: the item it appends, or the KeyError reading its stored flag raises. */
  method MakeItem(vis: string, preName: string, postName: string, common: seq<string>, post: seq<string>,
                  existing: seq<string>, differences: map<string, bool>) returns (r: Result<ComparisonItem, Fault>)
    ensures r.Err? <==> vis in common && vis in existing && vis !in differences
    ensures r.Ok? ==> fresh(r.value) && Made(r.value, vis, preName, postName, common, post, existing, differences)
  {
    var item := new ComparisonItem(vis);
    if vis in common {
      item.check := Checked;
      if vis in existing {
        if vis !in differences {
          return Err(Unexpected("KeyError: 'differences'"));
        }
        item.state := Success;
        item.UpdateDiffs(differences[vis]);
      }
    } else {
      item.SetLonely(if vis in post then preName else postName);
    }
    return Ok(item);
  }

  /** The state and check state of each item. */
  function RowsOf(items: seq<ComparisonItem>): (r: seq<Row>)
    reads items`state, items`check
    ensures |r| == |items| && forall i :: 0 <= i < |r| ==> r[i] == Row(items[i].state, items[i].check)
  {
    if |items| == 0 then [] else [Row(items[0].state, items[0].check)] + RowsOf(items[1..])
  }

  /** The list view of the compare page: the select-all row, then one item per visualisation. */
  class ComparisonList {
    var selectAll: ComparisonItem
    var rows: seq<ComparisonItem>
    /** The items lock_selection made unselectable. */
    var locked: seq<ComparisonItem>

    constructor ()
      ensures rows == [] && locked == [] && fresh(selectAll) && selectAll.state == SelectAll
    {
      selectAll := new ComparisonItem.SelectAllRow();
      rows := [];
      locked := [];
    }

    /** The rows after the first, which every scan of the list reads. */
    function Items(): seq<ComparisonItem>
      reads this
    {
      if |rows| == 0 then [] else rows[1..]
    }

    /** The state and check state of every row after the first. */
    function Rows(): (r: seq<Row>)
      reads this`rows, rows`state, rows`check
      ensures |rows| == 0 ==> r == []
      ensures |rows| > 0 ==> |r| == |rows| - 1 && forall i :: 0 <= i < |r| ==> r[i] == Row(rows[i + 1].state, rows[i + 1].check)
    {
      if |rows| == 0 then [] else RowsOf(rows[1..])
    }

    /** The select-all row heads the list, and no row appears twice. */
    predicate Listed()
      reads this
    {
      && |rows| > 0 && rows[0] == selectAll
      && forall i, j :: 0 <= i < j < |rows| ==> rows[i] != rows[j]
    }

    /** clear. */
    method Clear()
      modifies this`rows
      ensures rows == []
    {
      rows := [];
    }

    /**
     * toggle_item_check on the item in row `row`: a selectable item that is
     * not LONELY has its check box toggled (the select-all row included).
     */
    method ToggleItemCheck(row: nat) returns (toggled: bool)
      requires row < |rows|
      modifies rows`check
      ensures toggled <==> rows[row].selectable && rows[row].state != Lonely
      ensures toggled ==> rows[row].check == Toggle(old(rows[row].check))
      ensures !toggled ==> rows[row].check == old(rows[row].check)
      ensures forall i :: 0 <= i < |rows| && rows[i] != rows[row] ==> rows[i].check == old(rows[i].check)
    {
      var item := rows[row];
      if !item.selectable || item.state == Lonely {
        return false;
      }
      item.check := Toggle(item.check);
      return true;
    }

    /** Every checkable row after the first takes check state `c`. */
    method CheckItems(c: CheckState)
      requires Listed()
      modifies rows`check
      ensures selectAll.check == old(selectAll.check)
      ensures forall i :: 1 <= i < |rows| ==> rows[i].check == if rows[i].state != Lonely then c else old(rows[i].check)
    {
      for k := 1 to |rows|
        invariant selectAll.check == old(selectAll.check)
        invariant forall i :: 1 <= i < k ==> rows[i].check == if rows[i].state != Lonely then c else old(rows[i].check)
        invariant forall i :: k <= i < |rows| && rows[i].state == Lonely ==> rows[i].check == old(rows[i].check)
      {
        if rows[k].state != Lonely {
          rows[k].check := c;
        }
      }
    }

    /**
     * select_all_check, called with the item whose check box changed: a
     * toggled select-all row sets every checkable item and itself as
     * SelectAllToggled says; a toggled item leaves the items alone and sets
     * the select-all row as SelectAllFollows says.
     */
    method SelectAllCheck(item: ComparisonItem)
      requires Listed() && (item == selectAll || exists i :: 1 <= i < |rows| && rows[i] == item)
      modifies rows`check
      ensures item == selectAll ==>
                && selectAll.check == SelectAllToggled(old(Rows()))
                && forall i :: 1 <= i < |rows| ==>
                     rows[i].check == if rows[i].state != Lonely then SelectAllToggled(old(Rows())) else old(rows[i].check)
      ensures item != selectAll ==>
                && selectAll.check == SelectAllFollows(old(Rows()), item.check, old(selectAll.check))
                && forall i :: 1 <= i < |rows| ==> rows[i].check == old(rows[i].check)
    {
      if item == selectAll {
        var c := SelectAllToggled(Rows());
        CheckItems(c);
        selectAll.check := c;
      } else {
        selectAll.check := SelectAllFollows(Rows(), item.check, selectAll.check);
      }
    }

    /**
     * create: the list is cleared and refilled with the select-all row and an
     * item per visualisation, common ones first. Reading the stored
     * differences flag of an existing comparison that has none raises, and
     * stops the list where it is.
     */
    method Create(preName: string, postName: string, common: seq<string>, pre: seq<string>, post: seq<string>,
                  existing: seq<string>, differences: map<string, bool>) returns (r: Outcome<Fault>)
      modifies this`rows, this`selectAll
      ensures fresh(selectAll) && selectAll.state == SelectAll && selectAll.check == Checked && selectAll.selectable
      ensures Listed()
      ensures forall i :: 1 <= i < |rows| ==> fresh(rows[i])
      ensures r.Fail? <==> exists vis :: vis in common && vis in existing && vis !in differences
      ensures r.Pass? ==> |rows| == 1 + |common + pre + post|
      ensures forall i :: 1 <= i < |rows| ==>
                i - 1 < |common + pre + post|
                && Made(rows[i], (common + pre + post)[i - 1], preName, postName, common, post, existing, differences)
    {
      rows := [];
      selectAll := new ComparisonItem.SelectAllRow();
      rows := [selectAll];
      var all := common + pre + post;
      for k := 0 to |all|
        invariant fresh(selectAll) && selectAll.state == SelectAll && selectAll.check == Checked && selectAll.selectable
        invariant |rows| == k + 1 && rows[0] == selectAll
        invariant forall i :: 1 <= i < |rows| ==> fresh(rows[i])
        invariant forall i, j :: 0 <= i < j < |rows| ==> rows[i] != rows[j]
        invariant forall i :: 1 <= i < |rows| ==> Made(rows[i], all[i - 1], preName, postName, common, post, existing, differences)
        invariant forall j :: 0 <= j < k && all[j] in common && all[j] in existing ==> all[j] in differences
      {
        var made := MakeItem(all[k], preName, postName, common, post, existing, differences);
        if made.Err? {
          return Fail(made.error);
        }
        rows := rows + [made.value];
      }
      forall vis | vis in common && vis in existing ensures vis in differences {
        assert all[Visualisations.IndexOf(all, vis)] == vis;
      }
      return Pass;
    }

    /** lock_selection: neither the select-all row nor any item can be toggled. */
    method LockSelection()
      modifies Items()`selectable, selectAll`selectable, this`locked
      ensures !selectAll.selectable && locked == Items()
      ensures forall i :: 0 <= i < |Items()| ==> !Items()[i].selectable
    {
      selectAll.selectable := false;
      locked := Items();
      for k := 0 to |locked|
        invariant locked == Items()
        invariant forall i :: 0 <= i < k ==> !locked[i].selectable
        invariant !selectAll.selectable
      {
        locked[k].selectable := false;
      }
    }

    /** unlock_selection: the select-all row and every item lock_selection locked can be toggled again. */
    method UnlockSelection()
      modifies locked`selectable, selectAll`selectable, this`locked
      ensures selectAll.selectable && locked == []
      ensures forall i :: 0 <= i < |old(locked)| ==> old(locked)[i].selectable
    {
      selectAll.selectable := true;
      var was := locked;
      for k := 0 to |was|
        invariant forall i :: 0 <= i < k ==> was[i].selectable
        invariant selectAll.selectable
      {
        was[k].selectable := true;
      }
      locked := [];
    }
  }

  /** No item appears twice. */
  predicate Unrepeated(items: seq<ComparisonItem>)
  {
    forall i, j :: 0 <= i < j < |items| ==> items[i] != items[j]
  }

  /** The checked items (get_checked_items' Item column), in their order; with `pending`, only those not yet compared. */
  function CheckedItems(items: seq<ComparisonItem>, pending: bool): (r: seq<ComparisonItem>)
    reads items
    ensures forall k :: 0 <= k < |r| ==> r[k] in items && r[k].check == Checked && (pending ==> r[k].state != Success)
    ensures forall i :: 0 <= i < |items| && items[i].check == Checked && (pending ==> items[i].state != Success) ==> items[i] in r
    ensures |r| <= |items|
  {
    if |items| == 0 then []
    else
      var rest := CheckedItems(items[1..], pending);
      assert forall i :: 1 <= i < |items| ==> items[i] == items[1..][i - 1];
      if items[0].check == Checked && (pending ==> items[0].state != Success) then [items[0]] + rest else rest
  }

  /** No item appears twice among the checked items of a list where none is repeated. */
  lemma {:induction false} CheckedUnrepeated(items: seq<ComparisonItem>, pending: bool)
    requires Unrepeated(items)
    ensures Unrepeated(CheckedItems(items, pending))
  {
    if |items| > 0 {
      var rest := CheckedItems(items[1..], pending);
      assert Unrepeated(items[1..]) by {
        forall i, j | 0 <= i < j < |items[1..]| ensures items[1..][i] != items[1..][j] {
          assert items[1..][i] == items[i + 1] && items[1..][j] == items[j + 1];
        }
      }
      CheckedUnrepeated(items[1..], pending);
      assert items[0] !in items[1..];
      assert items[0] !in rest;
    }
  }

  // ---------------------------------------------------------------- workers

  const CompareFailed: string := "Failed to compare, contact OptiCORD team"
  const ExportFailed: string := "Failed to export, contact OptiCORD team"

  /** The worker that compares one visualisation of the two positions. */
  class ComparisonWorker {
    const item: ComparisonItem
    const pre: string
    const post: string
    var shouldCancel: bool

    /** A new worker queues its item. */
    constructor (pre: string, post: string, item: ComparisonItem)
      modifies item`state
      ensures this.item == item && this.pre == pre && this.post == post && !shouldCancel
      ensures item.state == Queued
    {
      this.item := item;
      this.pre := pre;
      this.post := post;
      shouldCancel := false;
      new;
      item.state := Queued;
    }

    method Cancel()
      modifies this`shouldCancel
      ensures shouldCancel
    {
      shouldCancel := true;
    }

    /**
     * run: a cancelled worker sets its item back to IDLE; otherwise the item
     * is PROCESSING while the comparison is set up and run, then SUCCESS, or
     * FAILURE: the invalid pair shows its own messages, anything else the
     * generic one. The metadata and frames the comparison reads from the
     * store are passed in. Every periodicity post has is compared, so one
     * that pre's frames lack fails the comparison with the generic message.
     */
    method Run(preMeta: VisMeta, postMeta: VisMeta, frames: Frames) returns (r: Outcome<Fault>)
      modifies item`state, item`msg, item`tooltip
      ensures shouldCancel ==> r.Pass? && item.state == Idle && item.msg == old(item.msg) && item.tooltip == old(item.tooltip)
      ensures !shouldCancel ==> (r.Pass? <==> item.state == Success) && (r.Fail? <==> item.state == Failure)
      ensures !shouldCancel ==>
                var dims := CheckDimensions(pre, post, preMeta.dimensions, postMeta.dimensions);
                dims.Err? ==> r == Fail(dims.error) && item.msg == dims.error.short && item.tooltip == dims.error.full
      ensures r.Fail? && !r.error.InvalidComparison? ==> item.msg == CompareFailed && item.tooltip == old(item.tooltip)
      ensures !shouldCancel ==> (r.Pass? <==> ComparePasses(pre, post, item.name, preMeta, postMeta, frames))
      ensures !shouldCancel && r.Pass? ==> item.msg == DifferencesFound || item.msg == NoDifferences
      ensures !shouldCancel && r.Pass? ==>
                (item.msg == DifferencesFound <==> CompareFinds(pre, post, item.name, preMeta, postMeta, frames))
      ensures !shouldCancel && CheckDimensions(pre, post, preMeta.dimensions, postMeta.dimensions).Ok?
              && (exists p :: p in postMeta.periodicities && (pre, item.name, p) !in frames)
              ==> r.Fail? && item.state == Failure && item.msg == CompareFailed
    {
      if shouldCancel {
        item.state := Idle;
        return Pass;
      }
      item.state := Processing;
      var comp := NewComparison(pre, post, item, preMeta, postMeta);
      if comp.Err? {
        r := Fail(comp.error);
      } else {
        var c := comp.value;
        r := c.Compare(frames);
        PairsAgree(c, pre, post, preMeta, postMeta, frames);
        if r.Pass? {
          assert DifferencesFound[0] != NoDifferences[0];
          assert item.msg == DifferencesFound <==> CompareFinds(pre, post, item.name, preMeta, postMeta, frames);
        }
        if p :| p in postMeta.periodicities && (pre, item.name, p) !in frames {
          var i :| 0 <= i < |c.periodicities| && c.periodicities[i] == p;
          assert c.Pair(frames, c.periodicities[i]).Err?;
        }
      }
      if r.Pass? {
        item.state := Success;
      } else {
        item.Fail(r.error, true, CompareFailed);
      }
    }
  }

  /**
   * The comparison that run sets up pairs every periodicity the way the
   * worker's inputs say, so its loop succeeds and finds differences exactly
   * as the comparison of those inputs does.
   */
  lemma PairsAgree(c: Comparison, pre: string, post: string, preMeta: VisMeta, postMeta: VisMeta, frames: Frames)
    requires c.prePosition == pre && c.postPosition == post && c.preMeta == preMeta && c.postMeta == postMeta
    requires CheckDimensions(pre, post, preMeta.dimensions, postMeta.dimensions).Ok?
    requires c.diffDims == (preMeta.dimensions != postMeta.dimensions) && c.periodicities == postMeta.periodicities
    ensures (exists i :: 0 <= i < |c.periodicities| && c.Pair(frames, c.periodicities[i]).Err?)
            <==> !ComparePasses(pre, post, c.vis, preMeta, postMeta, frames)
    ensures (!CheckPeriodicities(preMeta.periodicities, postMeta.periodicities)
             || exists i :: 0 <= i < |c.periodicities| && c.Changed(frames, c.periodicities[i]))
            <==> CompareFinds(pre, post, c.vis, preMeta, postMeta, frames)
  {
    var diffDims := CheckDimensions(pre, post, preMeta.dimensions, postMeta.dimensions).value;
    assert forall per :: c.Pair(frames, per) == PairOf(pre, post, c.vis, preMeta, postMeta, diffDims, frames, per);
  }

  /** The worker that exports one compared visualisation. */
  class ExportWorker {
    const item: ComparisonItem
    const desc: seq<string>
    const pre: string
    const post: string
    const folder: string
    /** The item's state when the worker was made, which a cancelled worker restores. */
    const originalState: ItemState
    var shouldCancel: bool

    /** A new worker remembers its item's state, then queues the item. */
    constructor (desc: seq<string>, pre: string, post: string, folder: string, item: ComparisonItem)
      modifies item`state
      ensures this.item == item && this.desc == desc && this.pre == pre && this.post == post && this.folder == folder
      ensures originalState == old(item.state) && item.state == Queued && !shouldCancel
    {
      this.item := item;
      this.desc := desc;
      this.pre := pre;
      this.post := post;
      this.folder := folder;
      originalState := item.state;
      shouldCancel := false;
      new;
      item.state := Queued;
    }

    method Cancel()
      modifies this`shouldCancel
      ensures shouldCancel
    {
      shouldCancel := true;
    }

    /**
     * run: a cancelled worker restores the state its item had before it was
     * queued; otherwise the item is EXPORTING while the export runs (or is
     * skipped), then SUCCESS, or FAILURE with the generic message. The stored
     * summary of the comparison (absent when the store has none, which raises),
     * the option values and the stored frames are passed in.
     */
    method Run(options: Options, summary: Option<Summary>, frames: Frames, saved: map<Periodicity, SavedPeriod>)
      returns (r: Outcome<Fault>)
      modifies item`state, item`msg, item`tooltip
      ensures shouldCancel ==> r.Pass? && item.state == originalState && item.msg == old(item.msg)
      ensures !shouldCancel ==> (r.Pass? <==> item.state == Success) && (r.Fail? <==> item.state == Failure)
      ensures r.Fail? ==> item.msg == ExportFailed && item.tooltip == old(item.tooltip)
      ensures !shouldCancel && summary.None? ==> r.Fail?
      ensures !shouldCancel && summary.Some? ==>
                var job := Job(pre, post, item.name, options, summary.value);
                r == if Skip(job) then Pass else Plan(job, frames, saved, 0, Progress([], false, Pass), false).outcome
    {
      if shouldCancel {
        item.state := originalState;
        return Pass;
      }
      item.state := Exporting;
      if summary.None? {
        r := Fail(Unexpected("KeyError: 'differences'"));
      } else {
        var job := Job(pre, post, item.name, options, summary.value);
        if Skip(job) {
          r := Pass;
        } else {
          var exporter := new Export(job);
          r := exporter.Run(frames, saved);
        }
      }
      if r.Pass? {
        item.state := Success;
      } else {
        item.Fail(r.error, false, ExportFailed);
      }
    }
  }

  // ------------------------------------------------------------------- page

  /**
   * The compare page: the comparison list, the compare and export buttons
   * (whether each is enabled, and its text), whether the position dropdowns
   * and the options tree are disabled, and every worker it has started.
   */
  class CompareWidget {
    const list: ComparisonList
    var buttons: Buttons
    var compareText: string
    var exportText: string
    var locked: bool
    var comparisons: seq<ComparisonWorker>
    var exports: seq<ExportWorker>

    constructor ()
      ensures fresh(list) && list.rows == [] && list.locked == []
      ensures buttons == ButtonStates([]) && compareText == "Compare" && exportText == "Export" && !locked
      ensures comparisons == [] && exports == []
    {
      list := new ComparisonList();
      buttons := ButtonStates([]);
      compareText, exportText := "Compare", "Export";
      locked := false;
      comparisons, exports := [], [];
    }

    /** manage_ui_states: the buttons follow the checked items, as ButtonStates says. */
    method ManageUiStates()
      modifies this`buttons
      ensures buttons == ButtonStates(list.Rows())
    {
      buttons := ButtonStates(list.Rows());
    }

    /**
     * load_visualisations, given the visualisation names the store holds
     * under each position, the visualisations with a stored comparison and
     * their stored differences flags: every visualisation of either position
     * gets one row, checked when both positions hold it and LONELY, missing
     * in the other position, when only one does.
     */
    method LoadVisualisations(preName: string, postName: string, preVis: seq<string>, postVis: seq<string>,
                              existing: seq<string>, differences: map<string, bool>) returns (r: Outcome<Fault>)
      modifies this`buttons, list`rows, list`selectAll
      ensures list.Listed()
      ensures r.Fail? <==> exists vis :: vis in preVis && vis in postVis && vis in existing && vis !in differences
      ensures forall i :: 1 <= i < |list.rows| ==> RowFor(list.rows[i], preName, postName, preVis, postVis, existing, differences)
      ensures r.Pass? ==> forall vis :: vis in preVis || vis in postVis ==> exists i :: 1 <= i < |list.rows| && list.rows[i].name == vis
      ensures r.Pass? ==> buttons == ButtonStates(list.Rows())
      ensures r.Fail? ==> buttons == old(buttons)
    {
      var s := Partition(preVis, postVis);
      r := list.Create(preName, postName, s.common, s.preOnly, s.postOnly, existing, differences);
      var all := s.common + s.preOnly + s.postOnly;
      forall i | 1 <= i < |list.rows|
        ensures RowFor(list.rows[i], preName, postName, preVis, postVis, existing, differences)
      {
        var row := list.rows[i];
        assert i - 1 < |all| && Made(row, all[i - 1], preName, postName, s.common, s.postOnly, existing, differences);
        assert all[i - 1] in all;
      }
      if r.Pass? {
        forall vis | vis in preVis || vis in postVis
          ensures exists i :: 1 <= i < |list.rows| && list.rows[i].name == vis
        {
          var j := Visualisations.IndexOf(all, vis);
          assert list.rows[j + 1].name == vis;
        }
        ManageUiStates();
      }
    }

    /**
     * name_desc_manager, given each dropdown's selection (None for its
     * placeholder): with both positions chosen the list is loaded, otherwise
     * cleared; the buttons follow.
     */
    method NameDescManager(preName: Option<string>, postName: Option<string>, preVis: seq<string>, postVis: seq<string>,
                           existing: seq<string>, differences: map<string, bool>) returns (r: Outcome<Fault>)
      modifies this`buttons, list`rows, list`selectAll
      ensures preName.None? || postName.None? ==> r.Pass? && list.rows == [] && buttons == Buttons(false, false)
      ensures preName.Some? && postName.Some? ==>
                && list.Listed()
                && (r.Fail? <==> exists vis :: vis in preVis && vis in postVis && vis in existing && vis !in differences)
                && (forall i :: 1 <= i < |list.rows| ==>
                      RowFor(list.rows[i], preName.value, postName.value, preVis, postVis, existing, differences))
                && (r.Pass? ==> buttons == ButtonStates(list.Rows()))
    {
      if preName.Some? && postName.Some? {
        r := LoadVisualisations(preName.value, postName.value, preVis, postVis, existing, differences);
        if r.Fail? {
          return;
        }
      } else {
        list.Clear();
        r := Pass;
      }
      ManageUiStates();
    }

    /**
     * lock: the dropdowns, the options tree and the list's selection are
     * locked, and of the two buttons only the one that cancels the running
     * operation is enabled, reading "Cancel".
     */
    method Lock(cancelCompare: bool)
      modifies this`buttons, this`compareText, this`exportText, this`locked
      modifies list.Items()`selectable, list.selectAll`selectable, list`locked
      ensures locked && buttons == Buttons(cancelCompare, !cancelCompare)
      ensures cancelCompare ==> compareText == "Cancel" && exportText == old(exportText)
      ensures !cancelCompare ==> exportText == "Cancel" && compareText == old(compareText)
      ensures !list.selectAll.selectable && list.locked == list.Items()
      ensures forall i :: 0 <= i < |list.Items()| ==> !list.Items()[i].selectable
    {
      locked := true;
      list.LockSelection();
      buttons := Buttons(cancelCompare, !cancelCompare);
      if cancelCompare {
        compareText := "Cancel";
      } else {
        exportText := "Cancel";
      }
    }

    /** The cancel signal, which reaches every worker the page has started. */
    method CancelAll()
      modifies comparisons`shouldCancel, exports`shouldCancel
      ensures forall i :: 0 <= i < |comparisons| ==> comparisons[i].shouldCancel
      ensures forall i :: 0 <= i < |exports| ==> exports[i].shouldCancel
    {
      for k := 0 to |comparisons|
        invariant forall i :: 0 <= i < k ==> comparisons[i].shouldCancel
      {
        comparisons[k].Cancel();
      }
      for k := 0 to |exports|
        invariant forall i :: 0 <= i < |comparisons| ==> comparisons[i].shouldCancel
        invariant forall i :: 0 <= i < k ==> exports[i].shouldCancel
      {
        exports[k].Cancel();
      }
    }

    /**
     * compare_items: the page is locked for comparing, and one new worker
     * per item queues it.
     */
    method CompareItems(pre: string, post: string, items: seq<ComparisonItem>) returns (started: seq<ComparisonWorker>)
      modifies this`buttons, this`compareText, this`exportText, this`locked, this`comparisons
      modifies list.Items()`selectable, list.selectAll`selectable, list`locked, items`state
      ensures locked && buttons == Buttons(true, false) && compareText == "Cancel" && exportText == old(exportText)
      ensures !list.selectAll.selectable && list.locked == list.Items()
      ensures comparisons == old(comparisons) + started && |started| == |items|
      ensures forall j :: 0 <= j < |items| ==>
                fresh(started[j]) && started[j].item == items[j] && started[j].pre == pre && started[j].post == post
                && !started[j].shouldCancel && items[j].state == Queued
    {
      Lock(true);
      started := [];
      for k := 0 to |items|
        invariant locked && buttons == Buttons(true, false) && compareText == "Cancel" && exportText == old(exportText)
        invariant !list.selectAll.selectable && list.locked == list.Items()
        invariant comparisons == old(comparisons) && |started| == k
        invariant forall j :: 0 <= j < k ==>
                    fresh(started[j]) && started[j].item == items[j] && started[j].pre == pre && started[j].post == post
                    && !started[j].shouldCancel && items[j].state == Queued
      {
        var w := new ComparisonWorker(pre, post, items[k]);
        started := started + [w];
      }
      comparisons := comparisons + started;
    }

    /**
     * compare_action: when the compare button reads "Compare", the checked
     * items not yet compared are compared, if there are any; otherwise the
     * running workers are cancelled and the button is disabled and reads
     * "Cancelling...".
     */
    method CompareAction(pre: string, post: string) returns (started: seq<ComparisonWorker>)
      modifies this`buttons, this`compareText, this`exportText, this`locked, this`comparisons
      modifies list.Items()`selectable, list.selectAll`selectable, list`locked, list.Items()`state
      modifies comparisons`shouldCancel, exports`shouldCancel
      ensures old(compareText) == "Compare" ==>
                var pending := old(CheckedItems(list.Items(), true));
                && |started| == |pending|
                && (|pending| > 0 ==> locked && compareText == "Cancel" && buttons == Buttons(true, false))
                && (|pending| == 0 ==> locked == old(locked) && compareText == old(compareText) && buttons == old(buttons))
                && forall j :: 0 <= j < |pending| ==> started[j].item == pending[j] && pending[j].state == Queued
      ensures old(compareText) != "Compare" ==>
                && started == [] && compareText == "Cancelling..." && !buttons.compareOn
                && forall i :: 0 <= i < |comparisons| ==> comparisons[i].shouldCancel
    {
      if compareText == "Compare" {
        var pending := CheckedItems(list.Items(), true);
        if |pending| > 0 {
          started := CompareItems(pre, post, pending);
        } else {
          started := [];
        }
      } else {
        CancelAll();
        buttons := buttons.(compareOn := false);
        compareText := "Cancelling...";
        started := [];
      }
    }

    /**
     * export_items: the page is locked for exporting, and one new worker per
     * checked item remembers the item's state and queues it.
     */
    method ExportItems(desc: seq<string>, pre: string, post: string, folder: string) returns (started: seq<ExportWorker>)
      requires list.Listed()
      modifies this`buttons, this`compareText, this`exportText, this`locked, this`exports
      modifies list.Items()`selectable, list.selectAll`selectable, list`locked, list.Items()`state
      ensures locked && buttons == Buttons(false, true) && exportText == "Cancel" && compareText == old(compareText)
      ensures exports == old(exports) + started
      ensures var items := old(CheckedItems(list.Items(), false));
                && |started| == |items|
                && forall j :: 0 <= j < |items| ==>
                     fresh(started[j]) && started[j].item == items[j] && started[j].folder == folder
                     && started[j].originalState == old(items[j].state) && items[j].state == Queued
    {
      var items := CheckedItems(list.Items(), false);
      assert Unrepeated(list.Items());
      CheckedUnrepeated(list.Items(), false);
      Lock(false);
      started := StartExports(desc, pre, post, folder, items);
      exports := exports + started;
    }

    /**
     * export_action, given the option values and the outcome of the export
     * dialogs (None when the user gives no folder or no valid export name):
     * when the export button reads "Export", a date filter whose start is
     * after its end, or a missing folder or name, starts nothing, and
     * otherwise the checked items are exported into the new folder; when it
     * does not, the running workers are cancelled and the button is disabled
     * and reads "Cancelling...".
     */
    method ExportAction(options: Options, exportPath: Option<string>, desc: seq<string>, pre: string, post: string)
      returns (started: seq<ExportWorker>)
      requires list.Listed()
      modifies this`buttons, this`compareText, this`exportText, this`locked, this`exports
      modifies list.Items()`selectable, list.selectAll`selectable, list`locked, list.Items()`state
      modifies comparisons`shouldCancel, exports`shouldCancel
      ensures old(exportText) == "Export" && ((options.dateFilter && Before(options.dateTo, options.dateFrom)) || exportPath.None?) ==>
                started == [] && exportText == old(exportText) && buttons == old(buttons) && locked == old(locked)
      ensures old(exportText) == "Export" && !(options.dateFilter && Before(options.dateTo, options.dateFrom)) && exportPath.Some? ==>
                && locked && exportText == "Cancel" && buttons == Buttons(false, true)
                && |started| == |old(CheckedItems(list.Items(), false))|
                && forall j :: 0 <= j < |started| ==> started[j].folder == exportPath.value
      ensures old(exportText) != "Export" ==>
                && started == [] && exportText == "Cancelling..." && !buttons.exportOn
                && forall i :: 0 <= i < |exports| ==> exports[i].shouldCancel
    {
      started := [];
      if exportText == "Export" {
        if options.dateFilter && Before(options.dateTo, options.dateFrom) {
          return;
        }
        if exportPath.None? {
          return;
        }
        started := ExportItems(desc, pre, post, exportPath.value);
      } else {
        CancelAll();
        buttons := buttons.(exportOn := false);
        exportText := "Cancelling...";
      }
    }

    /**
     * unlock: the button texts are restored, the dropdowns, the options tree
     * and the list's selection are unlocked, and the buttons follow the
     * checked items again.
     */
    method Unlock()
      modifies this`buttons, this`compareText, this`exportText, this`locked
      modifies list.locked`selectable, list.selectAll`selectable, list`locked
      ensures compareText == "Compare" && exportText == "Export" && !locked
      ensures buttons == ButtonStates(list.Rows())
      ensures list.selectAll.selectable && list.locked == []
      ensures forall i :: 0 <= i < |old(list.locked)| ==> old(list.locked)[i].selectable
    {
      compareText, exportText := "Compare", "Export";
      buttons := Buttons(true, true);
      locked := false;
      list.UnlockSelection();
      ManageUiStates();
    }

    /**
     * try_unlock, which every worker's finished signal calls: the page is
     * unlocked exactly when no item after the select-all row is PROCESSING,
     * EXPORTING or QUEUED.
     */
    method TryUnlock() returns (unlocked: bool)
      modifies this`buttons, this`compareText, this`exportText, this`locked
      modifies list.locked`selectable, list.selectAll`selectable, list`locked
      ensures unlocked <==> Settled(list.Rows())
      ensures unlocked ==> compareText == "Compare" && exportText == "Export" && !locked && buttons == ButtonStates(list.Rows())
      ensures unlocked ==> list.selectAll.selectable && list.locked == []
      ensures !unlocked ==>
                && buttons == old(buttons) && compareText == old(compareText) && exportText == old(exportText)
                && locked == old(locked) && list.locked == old(list.locked)
    {
      var unlock := true;
      var items := list.Items();
      ghost var rows := list.Rows();
      for k := 0 to |items|
        invariant unlock <==> Settled(rows[..k])
      {
        assert rows[..k + 1] == rows[..k] + [rows[k]] && rows[k].state == items[k].state;
        if items[k].state == Processing || items[k].state == Exporting || items[k].state == Queued {
          unlock := false;
        }
      }
      assert rows[..|items|] == rows;
      if unlock {
        Unlock();
      }
      unlocked := unlock;
    }
  }

  /** export_items' loop: one new worker per item, each remembering its item's state and queueing it. */
  method StartExports(desc: seq<string>, pre: string, post: string, folder: string, items: seq<ComparisonItem>)
    returns (started: seq<ExportWorker>)
    requires Unrepeated(items)
    modifies items`state
    ensures |started| == |items|
    ensures forall j :: 0 <= j < |items| ==>
              fresh(started[j]) && started[j].item == items[j] && started[j].folder == folder
              && started[j].originalState == old(items[j].state) && items[j].state == Queued
  {
    started := [];
    for k := 0 to |items|
      invariant |started| == k
      invariant forall j :: 0 <= j < k ==>
                  fresh(started[j]) && started[j].item == items[j] && started[j].folder == folder
                  && started[j].originalState == old(items[j].state) && items[j].state == Queued
      invariant forall j :: k <= j < |items| ==> items[j].state == old(items[j].state)
    {
      var w := new ExportWorker(desc, pre, post, folder, items[k]);
      started := started + [w];
    }
  }

  /** What a row of a loaded list says about its visualisation, in terms of the two positions' visualisations. */
  predicate RowFor(item: ComparisonItem, preName: string, postName: string, preVis: seq<string>, postVis: seq<string>,
                   existing: seq<string>, differences: map<string, bool>)
    reads item
  {
    && (item.name in preVis || item.name in postVis)
    && (item.name in preVis && item.name in postVis ==>
          && item.check == Checked
          && (item.name in existing ==> item.state == Success && item.name in differences)
          && (item.name !in existing ==> item.state == Idle))
    && (item.name in preVis && item.name !in postVis ==> item.state == Lonely && item.msg == "Missing in " + postName)
    && (item.name !in preVis && item.name in postVis ==> item.state == Lonely && item.msg == "Missing in " + preName)
  }

}
