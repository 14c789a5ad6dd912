/** TaskEntryLink (src/DataAccess/TasksTracker.Contracts/Models/TaskEntryLink.cs): a link owned by one task entry. */
module LinkModel {
  import opened EntityBase

  /** The column values of one TaskEntryLinks row. */
  datatype LinkRow = LinkRow(
    id: Guid, createdAt: DateTime, updatedAt: DateTime, deletedAt: DateTime,
    taskEntryId: Guid, link: string)

  class TaskEntryLink {
    var id: Guid
    var createdAt: DateTime
    var updatedAt: DateTime
    var deletedAt: DateTime
    var taskEntryId: Guid
    var link: string

    constructor()
      ensures id == EmptyId && taskEntryId == EmptyId && link == ""
      ensures createdAt == MinDate && updatedAt == MinDate && deletedAt == MinDate
    {
      id, taskEntryId, link := EmptyId, EmptyId, "";
      createdAt, updatedAt, deletedAt := MinDate, MinDate, MinDate;
    }

    /** The values a statement writes for this link. */
    function Row(): LinkRow
      reads this
    {
      LinkRow(id, createdAt, updatedAt, deletedAt, taskEntryId, link)
    }
  }

  /** The rows of a list of links, in list order. */
  function Rows(links: seq<TaskEntryLink>): (rows: seq<LinkRow>)
    reads links
    ensures |rows| == |links|
  {
    if links == [] then [] else [links[0].Row()] + Rows(links[1..])
  }

  /** The i-th row is the row of the i-th link. */
  lemma {:induction false} RowsAt(links: seq<TaskEntryLink>, i: nat)
    requires i < |links|
    ensures Rows(links)[i] == links[i].Row()
  {
    if i > 0 {
      RowsAt(links[1..], i - 1);
    }
  }
}
