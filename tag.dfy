/**
 * Tag (src/DataAccess/TasksTracker.Contracts/Models/Tag.cs). The Title init
 * accessor normalises what it is given; Tag is a value in this model, so the
 * title can only be set when the tag is built.
 */
module TagModel {
  import opened Text
  import opened EntityBase

  /** The characters the Title accessor strips out. */
  predicate Excluded(c: char) { c == ',' || c == '.' || c == ';' || c == '|' }

  /** The title lower-cased, with ',' '.' ';' '|' removed, trimmed: what the title-casing is applied to. */
  function CleanTagTitle(value: string): string {
    Trim(Remove(Remove(Remove(Remove(ToLower(value), ','), '.'), ';'), '|'))
  }

  /** The Title init accessor. */
  function NormalizeTagTitle(value: string): string {
    ToTitleCase(CleanTagTitle(value))
  }

  datatype Tag = Tag(
    id: Guid, createdAt: DateTime, updatedAt: DateTime, deletedAt: DateTime,
    title: string, isDefault: bool, glueId: Guid)

  /** new Tag { Title = value }: title normalised, not the default tag, no join row, not saved. */
  function NewTag(value: string): (t: Tag)
    ensures t.title == NormalizeTagTitle(value)
    ensures !t.isDefault && t.glueId == EmptyId && t.id == EmptyId
  {
    Tag(EmptyId, MinDate, MinDate, MinDate, NormalizeTagTitle(value), false, EmptyId)
  }

  /** The cleaned text has no upper-case letter, no excluded character and no surrounding blank. */
  lemma CleanTagTitleSpec(value: string)
    ensures NoUpper(CleanTagTitle(value))
    ensures forall c :: c in CleanTagTitle(value) ==> !Excluded(c)
    ensures Trimmed(CleanTagTitle(value))
  {
    ToLowerSpec(value);
  }

  /**
   * A tag title is trimmed, title-cased, free of ',' '.' ';' '|', and
   * agrees letter for letter, up to case, with the cleaned input.
   */
  lemma TagTitleSpec(value: string)
    ensures Trimmed(NormalizeTagTitle(value))
    ensures TitleCased(NormalizeTagTitle(value))
    ensures forall c :: Excluded(c) ==> c !in NormalizeTagTitle(value)
    ensures ToLower(NormalizeTagTitle(value)) == CleanTagTitle(value)
  {
    var clean := CleanTagTitle(value);
    CleanTagTitleSpec(value);
    ToTitleCaseSpec(clean);
    ToTitleCaseTrimmed(clean);
    ToLowerOfNoUpper(clean);
    forall c | Excluded(c) ensures c !in NormalizeTagTitle(value) {
      ToTitleCaseKeeps(clean, c);
    }
  }

  /** Two inputs that differ only in letter case. */
  predicate SameUpToCase(a: string, b: string) {
    |a| == |b| && forall i :: 0 <= i < |a| ==> LowerChar(a[i]) == LowerChar(b[i])
  }

  /** The title does not depend on the case of the input. */
  lemma TagTitleIgnoresCase(a: string, b: string)
    requires SameUpToCase(a, b)
    ensures NormalizeTagTitle(a) == NormalizeTagTitle(b)
  {
    assert ToLower(a) == ToLower(b);
  }

  /** Building a tag from the title of another gives the same title again. */
  lemma TagTitleIdempotent(value: string)
    ensures NormalizeTagTitle(NormalizeTagTitle(value)) == NormalizeTagTitle(value)
  {
    var t := NormalizeTagTitle(value);
    TagTitleSpec(value);
    CleanTagTitleSpec(value);
    var l := ToLower(t);
    RemoveAbsent(l, ',');
    RemoveAbsent(l, '.');
    RemoveAbsent(l, ';');
    RemoveAbsent(l, '|');
    TrimTrimmed(l);
  }

  /** Cleaning a cleaned text changes nothing. */
  lemma CleanTagTitleIdempotent(value: string)
    ensures CleanTagTitle(CleanTagTitle(value)) == CleanTagTitle(value)
  {
    var c := CleanTagTitle(value);
    CleanTagTitleSpec(value);
    ToLowerOfNoUpper(c);
    RemoveAbsent(c, ',');
    RemoveAbsent(c, '.');
    RemoveAbsent(c, ';');
    RemoveAbsent(c, '|');
    TrimTrimmed(c);
  }

  /** The tag typed as "work ," is stored with the title "Work". */
  lemma TagTitleExample()
    ensures NormalizeTagTitle("work ,") == "Work"
  {
    ExampleClean();
    ExampleTitleCase();
  }

  lemma ExampleClean()
    ensures CleanTagTitle("work ,") == "work"
  {
    ExampleLower();
    ExampleRemove();
    ExampleRemoveAbsent();
    ExampleTrim();
  }

  lemma ExampleLower()
    ensures ToLower("work ,") == "work ,"
  {
    ToLowerOfNoUpper("work ,");
  }

  lemma ExampleRemoveAbsent()
    ensures Remove(Remove(Remove("work ", '.'), ';'), '|') == "work "
  {
    RemoveAbsentThree("work ", '.', ';', '|');
  }

  lemma RemoveAbsentThree(s: string, a: char, b: char, c: char)
    requires a !in s && b !in s && c !in s
    ensures Remove(Remove(Remove(s, a), b), c) == s
  {
    RemoveAbsent(s, a);
    RemoveAbsent(s, b);
    RemoveAbsent(s, c);
  }

  lemma ExampleTrim()
    ensures Trim("work ") == "work"
  {
    LeadingSpaceUnique("work ", 0);
    TrailingSpaceUnique("work ", 1);
  }

  lemma ExampleRemove()
    ensures Remove("work ,", ',') == "work "
  {
    assert "work ," == "work " + ",";
    RemoveAppend("work ", ",", ',');
    RemoveAbsent("work ", ',');
    assert ","[1..] == [];
  }

  lemma ExampleTitleCase()
    ensures ToTitleCase("work") == "Work"
  {
    var s := "work";
    assert s[1..] == "ork" && s[1..][1..] == "rk" && s[1..][1..][1..] == "k";
    assert TitleCaseFrom("k", true) == "k";
    assert TitleCaseFrom("rk", true) == "rk";
    assert TitleCaseFrom("ork", true) == "ork";
  }
}
