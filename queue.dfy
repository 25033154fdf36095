/**
 * The hand-off queue shared by the compute stage (producers) and the
 * aggregation stage (sole consumer). Only its sequential meaning is
 * modelled: a first-in first-out sequence of records.
 */
module HandOff {
  import opened Weather

  class HandOffQueue {
    /** The records waiting in the queue, oldest first. */
    var items: seq<CityStat>

    constructor ()
      ensures items == []
    {
      items := [];
    }

    /** `put`: appends one record at the back. */
    method Put(x: CityStat)
      modifies this
      ensures items == old(items) + [x]
    {
      items := items + [x];
    }

    /** `empty`: whether nothing is waiting. */
    method Empty() returns (b: bool)
      ensures b <==> items == []
    {
      b := items == [];
    }

    /**
     * `get`: removes and returns the oldest record. On an empty queue the
     * source's `get` blocks, which only happens when no one checked
     * `empty` first; the one caller in the core always does.
     */
    method Get() returns (x: CityStat)
      requires items != []
      modifies this
      ensures x == old(items)[0]
      ensures items == old(items)[1..]
    {
      x := items[0];
      items := items[1..];
    }
  }
}
