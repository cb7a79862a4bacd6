/**
 * The public portfolio page: the category filter over the fetched
 * projects, and the carousel of a selected project, whose slide index
 * steps forwards and backwards modulo the number of images with
 * JavaScript's `%`.
 */
module Portfolio {
  import opened Common
  import opened Store

  /** The filter value that shows every project. */
  const AllCategories: string := "Tous"

  /** Shown for a slide whose URL is empty. */
  const PlaceholderImage: string := "https://via.placeholder.com/800x600?text=Image"

  // ---------------------------------------------------------------------
  // The category filter

  /** `filteredProjects`. */
  function FilterProjects(projects: seq<Project>, filter: string): (r: seq<Project>)
    ensures filter == AllCategories ==> r == projects
    ensures filter != AllCategories ==> forall p :: p in r <==> p in projects && p.category == filter
  {
    if filter == AllCategories then projects
    else Filter(projects, (p: Project) => p.category == filter)
  }

  /** The filtered list is the projects list with some entries deleted, so
      it keeps their relative order and is no longer. */
  lemma FilterProjectsIsSubsequence(projects: seq<Project>, filter: string)
    ensures IsSubsequence(FilterProjects(projects, filter), projects)
    ensures |FilterProjects(projects, filter)| <= |projects|
  {
    if filter == AllCategories {
      SubsequenceReflexive(projects);
    } else {
      FilterIsSubsequence(projects, (p: Project) => p.category == filter);
    }
    SubsequenceLength(FilterProjects(projects, filter), projects);
  }

  /** A category filter keeps every occurrence of every project of that
      category, and nothing else. */
  lemma FilterProjectsCounts(projects: seq<Project>, filter: string, p: Project)
    requires filter != AllCategories
    ensures multiset(FilterProjects(projects, filter))[p] ==
      if p.category == filter then multiset(projects)[p] else 0
  {
    FilterCounts(projects, (q: Project) => q.category == filter, p);
  }

  // ---------------------------------------------------------------------
  // The carousel

  /** The slides of a selected project: the cover, then the gallery when it
      is non-empty. */
  function CarouselImages(p: Project): (images: seq<string>)
    ensures |images| >= 1 && images[0] == p.imageUrl
  {
    if |p.images| > 0 then [p.imageUrl] + p.images else [p.imageUrl]
  }

  /** Both branches give the cover followed by the gallery. */
  lemma CarouselImagesAreCoverThenGallery(p: Project)
    ensures CarouselImages(p) == [p.imageUrl] + p.images
    ensures |CarouselImages(p)| == |p.images| + 1
  {
    if |p.images| == 0 {
      assert [p.imageUrl] + p.images == [p.imageUrl];
    }
  }

  /** JavaScript's `a % b` for `b > 0`: the remainder takes the sign of `a`,
      and negating the dividend negates the remainder, which fixes the
      value for a negative dividend too. */
  function JsRem(a: int, b: int): (r: int)
    requires b > 0
    ensures a >= 0 ==> 0 <= r < b && r == a % b
    ensures a < 0 ==> -b < r <= 0
    ensures a < 0 ==> r == -JsRem(-a, b)
    decreases if a < 0 then 1 else 0
  {
    if a >= 0 then a % b else -((-a) % b)
  }

  /** `next`: `(i + 1) % count`. */
  function NextIndex(i: int, count: int): (j: int)
    requires count >= 1
    ensures 0 <= i < count ==> 0 <= j < count
    ensures 0 <= i < count - 1 ==> j == i + 1
    ensures i == count - 1 ==> j == 0
  {
    JsRem(i + 1, count)
  }

  /** `prev`: `(i - 1 + count) % count`. */
  function PrevIndex(i: int, count: int): (j: int)
    requires count >= 1
    ensures 0 <= i < count ==> 0 <= j < count
    ensures 0 < i < count ==> j == i - 1
    ensures i == 0 ==> j == count - 1
  {
    JsRem(i - 1 + count, count)
  }

  /** Stepping back undoes stepping forward, and the reverse. */
  lemma StepRoundTrips(i: int, count: int)
    requires 0 <= i < count
    ensures PrevIndex(NextIndex(i, count), count) == i
    ensures NextIndex(PrevIndex(i, count), count) == i
  {
  }

  /** The index after `n` presses of `next`. */
  function NextTimes(i: int, count: int, n: nat): (j: int)
    requires count >= 1
    decreases n
  {
    if n == 0 then i else NextIndex(NextTimes(i, count, n - 1), count)
  }

  /** Pressing `next` `a + b` times is pressing it `a` times, then `b` times. */
  lemma {:induction false} NextTimesCompose(i: int, count: int, a: nat, b: nat)
    requires count >= 1
    ensures NextTimes(i, count, a + b) == NextTimes(NextTimes(i, count, a), count, b)
    decreases b
  {
    if b > 0 {
      NextTimesCompose(i, count, a, b - 1);
    }
  }

  /** Before the last slide is passed, each press of `next` moves one slide on. */
  lemma {:induction false} NextTimesWithinRange(i: int, count: int, n: nat)
    requires 0 <= i && i + n < count
    ensures NextTimes(i, count, n) == i + n
    decreases n
  {
    if n > 0 {
      NextTimesWithinRange(i, count, n - 1);
    }
  }

  /** `count` presses of `next` come back to the starting slide. */
  lemma NextCycles(i: int, count: int)
    requires 0 <= i < count
    ensures NextTimes(i, count, count) == i
  {
    NextTimesWithinRange(i, count, count - i - 1);
    assert NextTimes(i, count, count - i) == 0;
    NextTimesCompose(i, count, count - i, i);
    NextTimesWithinRange(0, count, i);
  }

  /** The `Carousel` component: its image list and current slide. */
  class Carousel {
    var images: seq<string>
    var index: int

    ghost predicate Valid()
      reads this
    {
      0 <= index && (index < |images| || index == 0)
    }

    /** The first render: slide 0. */
    constructor(initial: seq<string>)
      ensures Valid() && images == initial && index == 0
    {
      images := initial;
      index := 0;
    }

    /** The arrows are drawn only when there is more than one slide. */
    predicate HasControls()
      reads this
    {
      |images| > 1
    }

    /** The "next" arrow. */
    method Next()
      requires Valid() && HasControls()
      modifies this
      ensures Valid() && images == old(images)
      ensures index == NextIndex(old(index), |images|)
    {
      index := JsRem(index + 1, |images|);
    }

    /** The "previous" arrow. */
    method Prev()
      requires Valid() && HasControls()
      modifies this
      ensures Valid() && images == old(images)
      ensures index == PrevIndex(old(index), |images|)
    {
      index := JsRem(index - 1 + |images|, |images|);
    }

    /** A new image list (the page passes a fresh array on every render):
        the effect puts the index back to the first slide. */
    method SetImages(next: seq<string>)
      modifies this
      ensures Valid() && images == next && index == 0
    {
      images := next;
      index := 0;
    }

    /** What is drawn: nothing for an empty list, otherwise the current
        slide's URL, or the placeholder when that URL is empty. */
    function Shown(): (shown: Option<string>)
      requires Valid()
      reads this
      ensures shown.None? <==> |images| == 0
      ensures shown.Some? ==> shown.value != ""
      ensures shown.Some? && images[index] != "" ==> shown.value == images[index]
    {
      if |images| == 0 then None
      else if images[index] != "" then Some(images[index])
      else Some(PlaceholderImage)
    }
  }
}
