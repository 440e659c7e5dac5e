/**
 * The name validator of the program's text fields and the lock that guards
 * the temporary working file. The validator bans a set of characters that
 * depends on its mode and judges a name only by its last character, which
 * is the one just typed; the file manager remembers that the file has been
 * written to once a write lock has been taken.
 */
module Util {
  import opened Wrappers

  // ------------------------------------------------------------------ validator

  /** The modes of NameValidator. */
  const Full: int := 0
  const Partial: int := 1
  const NoneBanned: int := 2

  /** The characters no name may end with in the full mode: those a file name may not hold. */
  const FullChars: set<char> := {'\\', '/', ':', '*', '?', '"', '<', '>', '|'}

  /** The characters no name may end with in the partial mode: the path separators. */
  const PartialChars: set<char> := {'\\', '/'}

  /** The answers of a Qt validator. */
  datatype Validity = Invalid | Intermediate | Acceptable

  /** NameValidator's constructor: the banned characters of each mode; any other mode raises ValueError. */
  function BadChars(mode: int): (r: Result<set<char>, Fault>)
    ensures r.Ok? <==> mode in {Full, Partial, NoneBanned}
    ensures r.Err? ==> r.error == Unexpected("Unknown mode")
    ensures mode == Full ==> r == Ok(FullChars)
    ensures mode == Partial ==> r == Ok(PartialChars)
    ensures mode == NoneBanned ==> r == Ok({})
    ensures r.Ok? ==> forall c :: 'a' <= c <= 'z' || '0' <= c <= '9' ==> c !in r.value
  {
    if mode == Full then Ok(FullChars)
    else if mode == Partial then Ok(PartialChars)
    else if mode == NoneBanned then Ok({})
    else Err(Unexpected("Unknown mode"))
  }

  /**
   * validate: a non-empty value is acceptable when its last character is
   * not banned and invalid otherwise; the empty value is intermediate.
   */
  function Validate(bad: set<char>, value: string): (r: Validity)
    ensures r == Intermediate <==> value == ""
    ensures r == Acceptable <==> |value| > 0 && value[|value| - 1] !in bad
    ensures r == Invalid <==> |value| > 0 && value[|value| - 1] in bad
  {
    if |value| > 0 then
      if value[|value| - 1] !in bad then Acceptable else Invalid
    else
      Intermediate
  }

  /** Everything the partial mode bans, the full mode bans too. */
  lemma PartialWithinFull()
    ensures BadChars(Partial).Ok? && BadChars(Full).Ok?
    ensures BadChars(Partial).value <= BadChars(Full).value
    ensures BadChars(Full).value - BadChars(Partial).value == {':', '*', '?', '"', '<', '>', '|'}
  {
    assert FullChars - PartialChars == {':', '*', '?', '"', '<', '>', '|'};
  }

  /** Only the last character counts: a banned character anywhere before it is let through. */
  lemma OnlyLastCounts(bad: set<char>, prefix: string, c: char)
    ensures Validate(bad, prefix + [c]) == Validate(bad, [c])
  {
    assert (prefix + [c])[|prefix + [c]| - 1] == c;
  }

  /** Banning more characters never turns an invalid value acceptable. */
  lemma MoreBannedIsStricter(fewer: set<char>, more: set<char>, value: string)
    requires fewer <= more
    ensures Validate(more, value) == Acceptable ==> Validate(fewer, value) == Acceptable
    ensures Validate(fewer, value) == Invalid ==> Validate(more, value) == Invalid
  {
  }

  // -------------------------------------------------------------- file manager

  /**
   * FileManager: a read-write lock over the temporary file that also
   * remembers whether a write lock was ever taken. Only one writer holds the
   * lock at a time; `locked` is that writer's hold.
   */
  class FileManager {
    var changed: bool
    var locked: bool

    constructor ()
      ensures !changed && !locked
    {
      changed := false;
      locked := false;
    }

    /** lockForWrite: the file counts as changed from now on, and the write lock is taken. */
    method LockForWrite()
      requires !locked
      modifies this`changed, this`locked
      ensures changed && locked
    {
      changed := true;
      locked := true;
    }

    /** unlock: the lock is released; the changed flag is never cleared. */
    method Unlock()
      modifies this`locked
      ensures !locked && changed == old(changed)
    {
      locked := false;
    }
  }

  /** The temporary working file: its path, the path it was last saved to, and its lock. */
  class TempFile {
    var path: string
    var savedPath: string
    const manager: FileManager

    constructor (manager: FileManager)
      ensures this.manager == manager && path == "" && savedPath == ""
    {
      this.manager := manager;
      path := "";
      savedPath := "";
    }

    /**
     * save_to_location: the copy to `filepath` happens under the write lock,
     * which is released afterwards; the file is then saved at `filepath`, and
     * the manager remembers the write. When the copy raises (its outcome is
     * `copied`), the exception leaves the lock held and the saved path as it
     * was.
     */
    method SaveToLocation(filepath: string, copied: Outcome<Fault>) returns (r: Outcome<Fault>)
      requires !manager.locked
      modifies this`savedPath, manager
      ensures r == copied && path == old(path) && manager.changed
      ensures r.Pass? ==> savedPath == filepath && !manager.locked
      ensures r.Fail? ==> savedPath == old(savedPath) && manager.locked
    {
      manager.LockForWrite();
      if copied.Fail? {
        return copied;
      }
      manager.Unlock();
      savedPath := filepath;
      return Pass;
    }
  }
}
