/** A CSV file on disk, read and rewritten whole. */
module CsvStore {
  import opened Wrappers
  import opened Table

  /** One file of the output folder. `contents` is `None` while the file does
      not exist (`os.path.exists` is false) and otherwise the rows it holds. */
  class CsvTable<R> {
    var contents: Option<seq<R>>

    constructor (initial: Option<seq<R>>)
      ensures contents == initial
    {
      contents := initial;
    }

    /** The read-modify-write of every `save_*` function: read the existing
        table if the file exists, concatenate the new rows, drop duplicate
        keys keeping the last, and overwrite the file; if it does not exist,
        write the new rows as they are. */
    method MergeAndPersist<K(==)>(newRows: seq<R>, key: R -> K)
      modifies this
      ensures contents == Some(Merge(old(contents), newRows, key))
    {
      if contents.Some? {
        var existing := contents.value;
        var combined := DropDuplicatesKeepLast(existing + newRows, key);
        contents := Some(combined);
      } else {
        contents := Some(newRows);
      }
    }
  }

  /** What a table holds after a run that saves `rows` only when there are
      some (`if records: save(records)`). */
  function SavedIfAny<R, K(==)>(before: Option<seq<R>>, rows: seq<R>, key: R -> K): (after: Option<seq<R>>)
    ensures rows == [] ==> after == before
    ensures rows != [] ==> after.Some? && KeysOf(rows, key) <= KeysOf(after.value, key)
  {
    if rows == [] then before
    else
      var merged := Merge(before, rows, key);
      assert before.Some? ==> KeysOf(merged, key) == KeysOf(before.value, key) + KeysOf(rows, key);
      Some(merged)
  }
}
