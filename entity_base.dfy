/**
 * What every persisted entity shares (src/DataAccess/TasksTracker.Contracts/Models/EntityBase.cs),
 * the Status enum (Enums/Status.cs) and the Guid.NewGuid oracle.
 */
module EntityBase {

  /** A Guid; 0 plays the part of Guid.Empty, the id of an entity never saved. */
  type Guid = nat

  const EmptyId: Guid := 0

  /** A DateTime as a tick count; 0 plays DateTime.MinValue, the value of a field never set. */
  type DateTime = int

  const MinDate: DateTime := 0

  /** Status.cs: Created = 0 is the default of a new entry. */
  datatype Status = Created | Started | Delayed | Rejected | Completed

  /** Guid.NewGuid: each call gives a non-empty id that no earlier call gave. */
  class Guids {
    var issued: seq<Guid>
    var last: nat

    ghost predicate Valid()
      reads this
    {
      && (forall i :: 0 <= i < |issued| ==> 0 < issued[i] <= last)
      && (forall i, j :: 0 <= i < j < |issued| ==> issued[i] != issued[j])
    }

    constructor()
      ensures Valid() && issued == []
    {
      issued, last := [], 0;
    }

    method NewGuid() returns (g: Guid)
      requires Valid()
      modifies this
      ensures Valid()
      ensures g != EmptyId && g !in old(issued)
      ensures issued == old(issued) + [g]
    {
      last := last + 1;
      g := last;
      issued := issued + [g];
    }
  }
}
