/**
 * The Slugify extension of src/DataAccess/TasksTracker.Contracts/Extensions/SlugifyTitle.cs:
 * the slug SlugHelper generates for a value, cut down to its first three
 * '-'-separated pieces. Nothing else (no date, no hash) enters the result.
 */
module SlugifyTitle {
  import opened Text

  /** SlugHelper.GenerateSlug: a library function the model leaves uninterpreted. */
  type SlugGenerator = string -> string

  /** string.Join("-", slug.Split('-').Take(3)) */
  function TakeThreeSegments(slug: string): string {
    var pieces := Split(slug, '-');
    Join(pieces[..if |pieces| < 3 then |pieces| else 3], '-')
  }

  function Slugify(generate: SlugGenerator, value: string): string {
    TakeThreeSegments(generate(value))
  }

  /**
   * The cut is the longest prefix of the slug with at most two '-': it is a
   * prefix, it holds at most two '-', and either it is the whole slug or the
   * slug goes on with a third '-'.
   */
  lemma TakeThreeSegmentsSpec(slug: string)
    ensures TakeThreeSegments(slug) <= slug
    ensures Count(TakeThreeSegments(slug), '-') <= 2
    ensures TakeThreeSegments(slug) == slug || slug[|TakeThreeSegments(slug)|] == '-'
    ensures TakeThreeSegments(slug) != slug ==> Count(TakeThreeSegments(slug), '-') == 2
  {
    var ps := Split(slug, '-');
    JoinSplit(slug, '-');
    if |ps| <= 3 {
      assert ps[..|ps|] == ps;
      JoinCount(ps, '-');
    } else {
      JoinSplitAt(ps, 3, '-');
      JoinCount(ps[..3], '-');
    }
  }

  lemma {:induction false} CountPrefix(s: string, k: nat)
    requires k <= |s|
    ensures Count(s[..k], '-') <= Count(s, '-')
  {
    assert s == s[..k] + s[k..];
    CountAppend(s[..k], s[k..], '-');
  }

  /** No longer prefix of the slug keeps to two '-'. */
  lemma TakeThreeSegmentsLongest(slug: string, p: string)
    requires p <= slug && Count(p, '-') <= 2
    ensures |p| <= |TakeThreeSegments(slug)|
  {
    var r := TakeThreeSegments(slug);
    TakeThreeSegmentsSpec(slug);
    if |p| > |r| {
      assert p[..|r| + 1] == r + ['-'];
      CountAppend(r, ['-'], '-');
      assert Count(['-'], '-') == 1 by { assert ['-'][1..] == []; }
      CountPrefix(p, |r| + 1);
    }
  }

  /** Slugify returns a prefix of the generated slug with at most two '-', the longest such. */
  lemma SlugifyIsLongestPrefix(generate: SlugGenerator, value: string, p: string)
    requires p <= generate(value) && Count(p, '-') <= 2
    ensures Slugify(generate, value) <= generate(value)
    ensures Count(Slugify(generate, value), '-') <= 2
    ensures |p| <= |Slugify(generate, value)|
  {
    TakeThreeSegmentsSpec(generate(value));
    TakeThreeSegmentsLongest(generate(value), p);
  }

  /** A generated slug with at most two '-' comes back unchanged. */
  lemma SlugifyKeepsShortSlug(generate: SlugGenerator, value: string)
    requires Count(generate(value), '-') <= 2
    ensures Slugify(generate, value) == generate(value)
  {
    TakeThreeSegmentsLongest(generate(value), generate(value));
    TakeThreeSegmentsSpec(generate(value));
  }

  /** Cutting a slug that has already been cut changes nothing. */
  lemma TakeThreeSegmentsIdempotent(slug: string)
    ensures TakeThreeSegments(TakeThreeSegments(slug)) == TakeThreeSegments(slug)
  {
    var r := TakeThreeSegments(slug);
    TakeThreeSegmentsSpec(slug);
    TakeThreeSegmentsLongest(r, r);
    TakeThreeSegmentsSpec(r);
  }
}
