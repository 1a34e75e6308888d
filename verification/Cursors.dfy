/** The iterator interface (include/leveldb/iterator.h): a cursor on a sorted list of entries. */
module Cursors {
  import opened Keys

  datatype Direction = Forward | Reverse

  /** A cursor on a sorted list of entries. Position |list| is "not valid", at either end. */
  class ListCursor {
    const list: seq<Entry>
    var pos: nat

    ghost predicate Fits()
      reads this
    {
      Sorted(list) && pos <= |list|
    }

    constructor (list: seq<Entry>)
      requires Sorted(list)
      ensures Fits() && this.list == list && pos == |list|
    {
      this.list := list;
      pos := |list|;
    }

    predicate Valid()
      reads this
    {
      pos < |list|
    }

    function Current(): Entry
      requires Valid()
      reads this
    {
      list[pos]
    }

    method SeekToFirst()
      requires Fits()
      modifies this
      ensures Fits() && pos == 0
    {
      pos := 0;
    }

    method SeekToLast()
      requires Fits()
      modifies this
      ensures Fits() && pos == if list == [] then 0 else |list| - 1
    {
      pos := if list == [] then 0 else |list| - 1;
    }

    method Seek(target: InternalKey)
      requires Fits()
      modifies this
      ensures Fits() && pos == SeekIndex(list, target)
    {
      pos := SeekIndex(list, target);
    }

    method Next()
      requires Fits() && Valid()
      modifies this
      ensures Fits() && pos == old(pos) + 1
    {
      pos := pos + 1;
    }

    method Prev()
      requires Fits() && Valid()
      modifies this
      ensures Fits() && pos == if old(pos) == 0 then |list| else old(pos) - 1
    {
      pos := if pos == 0 then |list| else pos - 1;
    }
  }
}
