/**
 * TaskEntry (src/DataAccess/TasksTracker.Contracts/Models/TaskEntry.cs): a
 * unit of work. Assigning Title stores the normalised title and, from the
 * same raw value, the slug; the slug has no other writer.
 */
module TaskEntryModel {
  import opened Text
  import opened EntityBase
  import opened TagModel
  import opened LinkModel
  import opened SlugifyTitle

  /** The Title setter: lower-case, trim, title-case. */
  function NormalizeTaskTitle(value: string): string {
    ToTitleCase(Trim(ToLower(value)))
  }

  /** The column values of one TaskEntries row. */
  datatype EntryRow = EntryRow(
    id: Guid, createdAt: DateTime, updatedAt: DateTime, deletedAt: DateTime,
    categoryId: Guid, title: string, slug: string, status: Status, notes: string)

  class TaskEntry {
    var id: Guid
    var createdAt: DateTime
    var updatedAt: DateTime
    var deletedAt: DateTime
    var categoryId: Guid
    var title: string
    var slug: string
    var status: Status
    var notes: string
    var links: seq<TaskEntryLink>
    var tags: seq<Tag>

    /** new TaskEntry(): nothing set, status Created, empty title, slug, notes, links and tags. */
    constructor()
      ensures id == EmptyId && categoryId == EmptyId
      ensures createdAt == MinDate && updatedAt == MinDate && deletedAt == MinDate
      ensures title == "" && slug == "" && notes == "" && status == Created
      ensures links == [] && tags == []
    {
      id, categoryId := EmptyId, EmptyId;
      createdAt, updatedAt, deletedAt := MinDate, MinDate, MinDate;
      title, slug, notes, status := "", "", "", Created;
      links, tags := [], [];
    }

    /** The Title setter: the title is normalised, the slug is derived from the raw value. */
    method SetTitle(value: string, generate: SlugGenerator)
      modifies this`title, this`slug
      ensures title == NormalizeTaskTitle(value)
      ensures slug == Slugify(generate, value)
    {
      title := NormalizeTaskTitle(value);
      slug := Slugify(generate, value);
    }

    /** The values the insert statement writes for this entry. */
    function Row(): EntryRow
      reads this
    {
      EntryRow(id, createdAt, updatedAt, deletedAt, categoryId, title, slug, status, notes)
    }
  }

  /**
   * A stored title is trimmed and title-cased, and agrees letter for letter,
   * up to case, with the trimmed input.
   */
  lemma TaskTitleSpec(value: string)
    ensures Trimmed(NormalizeTaskTitle(value))
    ensures TitleCased(NormalizeTaskTitle(value))
    ensures ToLower(NormalizeTaskTitle(value)) == Trim(ToLower(value))
  {
    var t := Trim(ToLower(value));
    ToLowerSpec(value);
    assert NoUpper(t);
    ToLowerOfNoUpper(t);
    ToTitleCaseSpec(t);
    ToTitleCaseTrimmed(t);
  }

  /** The title depends neither on letter case nor on surrounding whitespace. */
  lemma TaskTitleIgnoresCaseAndSpace(w1: string, x: string, w2: string, y: string)
    requires AllWhiteSpace(w1) && AllWhiteSpace(w2) && SameUpToCase(x, y)
    ensures NormalizeTaskTitle(w1 + x + w2) == NormalizeTaskTitle(y)
  {
    ToLowerAppend(w1 + x, w2);
    ToLowerAppend(w1, x);
    ToLowerWhiteSpace(w1);
    ToLowerWhiteSpace(w2);
    TrimAround(w1, ToLower(x), w2);
    assert ToLower(x) == ToLower(y);
  }

  /** Assigning an entry its own title leaves the title as it is. */
  lemma TaskTitleIdempotent(value: string)
    ensures NormalizeTaskTitle(NormalizeTaskTitle(value)) == NormalizeTaskTitle(value)
  {
    TaskTitleSpec(value);
    TrimTrimmed(Trim(ToLower(value)));
  }
}
