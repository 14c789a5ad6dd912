/**
 * ToSaveLists (src/DataAccess/TasksTracker.Sqlite/Dtos/ToSaveLists.cs): the
 * children of an entry split into those to insert and those to update, and
 * a Combined list that Combine appends both to.
 */
module SaveLists {

  /** What Combined holds after Combine, given what it held before. */
  function CombinedAfter<T>(combined: seq<T>, toInsert: seq<T>, toUpdate: seq<T>): (r: seq<T>)
    ensures |r| == |combined| + |toInsert| + |toUpdate|
    ensures r[..|combined|] == combined
  {
    combined + toInsert + toUpdate
  }

  class ToSaveLists<T> {
    var toInsert: seq<T>
    var toUpdate: seq<T>
    var combined: seq<T>

    /** A new ToSaveLists has all three lists empty. */
    constructor()
      ensures toInsert == [] && toUpdate == [] && combined == []
    {
      toInsert, toUpdate, combined := [], [], [];
    }

    /** Combined.AddRange(ToInsert); Combined.AddRange(ToUpdate). */
    method Combine()
      modifies this`combined
      ensures combined == CombinedAfter(old(combined), toInsert, toUpdate)
      ensures toInsert == old(toInsert) && toUpdate == old(toUpdate)
    {
      combined := combined + toInsert;
      combined := combined + toUpdate;
    }
  }

  /** Combine keeps what Combined held, then every item to insert, then every item to update, in order. */
  lemma CombinedAfterSpec<T>(combined: seq<T>, toInsert: seq<T>, toUpdate: seq<T>)
    ensures forall i :: 0 <= i < |toInsert| ==>
      CombinedAfter(combined, toInsert, toUpdate)[|combined| + i] == toInsert[i]
    ensures forall i :: 0 <= i < |toUpdate| ==>
      CombinedAfter(combined, toInsert, toUpdate)[|combined| + |toInsert| + i] == toUpdate[i]
    ensures forall x :: x in CombinedAfter(combined, toInsert, toUpdate) <==>
      x in combined || x in toInsert || x in toUpdate
  {
  }

  /** Combine is not idempotent: unless both lists are empty, a second call appends them again. */
  lemma CombineTwice<T>(combined: seq<T>, toInsert: seq<T>, toUpdate: seq<T>)
    ensures CombinedAfter(CombinedAfter(combined, toInsert, toUpdate), toInsert, toUpdate)
      == combined + toInsert + toUpdate + toInsert + toUpdate
    ensures |toInsert| + |toUpdate| > 0 ==>
      CombinedAfter(CombinedAfter(combined, toInsert, toUpdate), toInsert, toUpdate)
        != CombinedAfter(combined, toInsert, toUpdate)
  {
  }
}
