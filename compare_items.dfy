/**
 * The rows of the comparison list: one item per visualisation of the two
 * positions, plus the select-all row at the top. Each item carries the state
 * of its comparison or export, a one-line message, a tooltip and a
 * three-state check box.
 */
module CompareItems {
  import opened Wrappers

  /** The states of a comparison item; `SelectAll` marks the select-all row. */
  datatype ItemState = SelectAll | Lonely | Idle | Queued | Processing | Exporting | Failure | Success

  /** Qt's check states 0, 1 and 2. */
  datatype CheckState = Unchecked | PartiallyChecked | Checked

  const DifferencesFound: string := "Differences found"
  const NoDifferences: string := "No differences"

  class ComparisonItem {
    const name: string
    var state: ItemState
    var msg: string
    var tooltip: string
    var check: CheckState
    var selectable: bool
    var enabled: bool

    /** An item for a visualisation: idle, unchecked, with no message. */
    constructor (name: string)
      ensures this.name == name && state == Idle && msg == "" && tooltip == ""
      ensures check == Unchecked && selectable && enabled
    {
      this.name := name;
      state := Idle;
      msg := "";
      tooltip := "";
      check := Unchecked;
      selectable := true;
      enabled := true;
    }

    /** SelectAllItem: the checked select-all row. */
    constructor SelectAllRow()
      ensures name == "Select All" && state == SelectAll && msg == "" && tooltip == ""
      ensures check == Checked && selectable && enabled
    {
      name := "Select All";
      state := SelectAll;
      msg := "";
      tooltip := "";
      check := Checked;
      selectable := true;
      enabled := true;
    }

    /** set_lonely: the visualisation exists in one position only. */
    method SetLonely(missingIn: string)
      modifies this`state, this`msg, this`enabled
      ensures state == Lonely && msg == "Missing in " + missingIn && !enabled
    {
      state, msg, enabled := Lonely, "Missing in " + missingIn, false;
    }

    /** update_diffs: the message tells whether the comparison found differences. */
    method UpdateDiffs(diffs: bool)
      modifies this`msg
      ensures diffs ==> msg == DifferencesFound
      ensures !diffs ==> msg == NoDifferences
    {
      if diffs {
        msg := DifferencesFound;
      } else {
        msg := NoDifferences;
      }
    }

    /**
     * A worker's exception handler: an invalid comparison, when `specific`
     * says the handler distinguishes one, shows its full text as the tooltip
     * and its short text as the message; anything else shows `generic`.
     */
    method Fail(f: Fault, specific: bool, generic: string)
      modifies this`state, this`msg, this`tooltip
      ensures state == Failure
      ensures specific && f.InvalidComparison? ==> msg == f.short && tooltip == f.full
      ensures !(specific && f.InvalidComparison?) ==> msg == generic && tooltip == old(tooltip)
    {
      if specific && f.InvalidComparison? {
        tooltip, msg := f.full, f.short;
      } else {
        msg := generic;
      }
      state := Failure;
    }
  }
}
