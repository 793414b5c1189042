/**
 * The entities of the blog (blog/models.py) as plain values, the errors the
 * framework raises on their behalf, and the sequence filter that stands for
 * every ORM `.filter(...)` call.
 */
module Records {
  import opened Wrappers

  /** A `DateTimeField` value: calendar date plus a time of day in seconds. */
  datatype DateTime = DateTime(year: int, month: int, day: int, seconds: int)

  /** Strict chronological order: lexicographic on (year, month, day, seconds). */
  predicate Before(a: DateTime, b: DateTime)
  {
    a.year < b.year
    || (a.year == b.year && a.month < b.month)
    || (a.year == b.year && a.month == b.month && a.day < b.day)
    || (a.year == b.year && a.month == b.month && a.day == b.day && a.seconds < b.seconds)
  }

  /** `a <= b` on timestamps. */
  predicate AtOrBefore(a: DateTime, b: DateTime)
  {
    !Before(b, a)
  }

  function DaysInMonth(year: int, month: int): int
  {
    if month == 2 then
      (if (year % 4 == 0 && year % 100 != 0) || year % 400 == 0 then 29 else 28)
    else if month == 4 || month == 6 || month == 9 || month == 11 then 30
    else 31
  }

  /** The range Python's `datetime` admits. */
  predicate ValidDateTime(t: DateTime)
  {
    && 1 <= t.year <= 9999
    && 1 <= t.month <= 12
    && 1 <= t.day <= DaysInMonth(t.year, t.month)
    && 0 <= t.seconds < 86400
  }

  datatype Category = Category(title: string, slug: string)

  datatype Series = Series(title: string, slug: string)

  /**
   * A blog post. Categories are held by slug, the series by its slug, and the
   * tags of the tagging plugin as the set of tag names attached to the post.
   */
  datatype Post = Post(
    title: string,
    slug: string,
    publishDate: DateTime,
    isPublished: bool,
    isFeatured: bool,
    categories: set<string>,
    series: Option<string>,
    tags: set<string>)

  /** An image attached to a post; only images with a position belong to its gallery. */
  datatype PostImage = PostImage(post: Post, title: string, galleryPosition: Option<nat>)

  /** What the framework raises on behalf of the core. */
  datatype Error =
    | NotFound                   // Http404, or DoesNotExist where it is not caught
    | MultipleObjectsReturned    // `.get()` matched more than one row
    | NegativeIndexing           // a QuerySet sliced with a negative bound
    | TypeError                  // `None - 1` and the like
    | IndexError                 // `args[-2]` on a too-short list
    | ValueError                 // `strftime` before 1900 and the like
    | TemplateSyntaxError

  /** Python truthiness of an optional integer argument (`if year:`). */
  predicate GivenInt(o: Option<int>)
  {
    o.Some? && o.value != 0
  }

  /** Python truthiness of an optional string argument (`if category_slug:`). */
  predicate GivenStr(o: Option<string>)
  {
    o.Some? && o.value != ""
  }

  /** The elements of `s` that satisfy `keep`, in their original order. */
  function Filter<T(!new)>(s: seq<T>, keep: T -> bool): (r: seq<T>)
    ensures |r| <= |s|
    ensures forall x :: x in r <==> x in s && keep(x)
  {
    if s == [] then []
    else
      var last := s[|s| - 1];
      assert s == s[..|s| - 1] + [last];
      Filter(s[..|s| - 1], keep) + (if keep(last) then [last] else [])
  }

  /**
   * `QuerySet.get(...)`: the single element that satisfies `keep`; none is
   * `DoesNotExist`, two or more is `MultipleObjectsReturned`.
   */
  function GetOne<T(!new)>(s: seq<T>, keep: T -> bool): (r: Result<T, Error>)
    ensures r == Failure(NotFound) <==> forall x :: x in s ==> !keep(x)
    ensures r == Failure(MultipleObjectsReturned) <==> |Filter(s, keep)| > 1
    ensures r.Success? ==> r.value in s && keep(r.value) && Filter(s, keep) == [r.value]
    ensures |Filter(s, keep)| == 1 ==> r == Success(Filter(s, keep)[0])
  {
    var matches := Filter(s, keep);
    assert |matches| > 0 ==> matches[0] in matches;
    if |matches| == 0 then
      Failure(NotFound)
    else if |matches| > 1 then
      Failure(MultipleObjectsReturned)
    else
      Success(matches[0])
  }

  /** A filter that no element passes keeps nothing. */
  lemma {:induction false} FilterNone<T(!new)>(s: seq<T>, keep: T -> bool)
    requires forall i :: 0 <= i < |s| ==> !keep(s[i])
    ensures Filter(s, keep) == []
  {
    if s != [] {
      FilterNone(s[..|s| - 1], keep);
    }
  }

  /** When no two positions both satisfy `keep`, at most one element is kept. */
  lemma {:induction false} FilterAtMostOne<T(!new)>(s: seq<T>, keep: T -> bool)
    requires forall i, j :: 0 <= i < j < |s| ==> !(keep(s[i]) && keep(s[j]))
    ensures |Filter(s, keep)| <= 1
  {
    if s != [] {
      var init, last := s[..|s| - 1], s[|s| - 1];
      FilterAtMostOne(init, keep);
      if keep(last) {
        FilterNone(init, keep);
      }
    }
  }

  /** Posts ordered newest first: no post is published before a later one. */
  predicate NewestFirst(s: seq<Post>)
  {
    forall i, j :: 0 <= i < j < |s| ==> AtOrBefore(s[j].publishDate, s[i].publishDate)
  }

  lemma {:induction false} FilterKeepsOrder(s: seq<Post>, keep: Post -> bool)
    requires NewestFirst(s)
    ensures NewestFirst(Filter(s, keep))
  {
    if s != [] {
      var init, last := s[..|s| - 1], s[|s| - 1];
      assert NewestFirst(init);
      FilterKeepsOrder(init, keep);
      var f := Filter(init, keep);
      if keep(last) {
        forall i, j | 0 <= i < j < |f + [last]|
          ensures AtOrBefore((f + [last])[j].publishDate, (f + [last])[i].publishDate)
        {
          if j == |f| {
            var x := f[i];
            assert x in init;
            var k :| 0 <= k < |init| && init[k] == x;
            assert s[k] == x && s[|s| - 1] == last;
          }
        }
      }
    }
  }

  /** Two filters in a row keep exactly what one filter by the conjunction keeps. */
  lemma {:induction false} FilterFuse<T(!new)>(s: seq<T>, f: T -> bool, g: T -> bool, h: T -> bool)
    requires forall x :: h(x) == (f(x) && g(x))
    ensures Filter(Filter(s, f), g) == Filter(s, h)
  {
    if s != [] {
      var init, last := s[..|s| - 1], s[|s| - 1];
      FilterFuse(init, f, g, h);
      var fi := Filter(init, f);
      if f(last) {
        assert Filter(s, f) == fi + [last];
        assert (fi + [last])[..|fi|] == fi;
      } else {
        assert Filter(s, f) == fi;
      }
    }
  }

  /** A filter whose predicate holds of everything keeps the sequence whole. */
  lemma {:induction false} FilterAll<T(!new)>(s: seq<T>, keep: T -> bool)
    requires forall x :: keep(x)
    ensures Filter(s, keep) == s
  {
    if s != [] {
      var init, last := s[..|s| - 1], s[|s| - 1];
      FilterAll(init, keep);
      assert s == init + [last];
    }
  }

  /** A filter takes each element at most as often as the input holds it. */
  lemma {:induction false} FilterSubMultiset<T(!new)>(s: seq<T>, keep: T -> bool)
    ensures multiset(Filter(s, keep)) <= multiset(s)
  {
    if s != [] {
      var init := s[..|s| - 1];
      FilterSubMultiset(init, keep);
      assert s == init + [s[|s| - 1]];
    }
  }

  /** Filters that agree on every element keep the same elements. */
  lemma {:induction false} FilterExt<T(!new)>(s: seq<T>, f: T -> bool, g: T -> bool)
    requires forall x :: f(x) == g(x)
    ensures Filter(s, f) == Filter(s, g)
  {
    if s != [] {
      FilterExt(s[..|s| - 1], f, g);
    }
  }

  /**
   * The `unique_for_date` constraint on `Post.slug`: no two stored posts share
   * a slug and a publish day.
   */
  predicate SlugUniquePerDate(db: seq<Post>)
  {
    forall i, j :: 0 <= i < j < |db| ==> !SameDayAndSlug(db[i], db[j])
  }

  predicate SameDayAndSlug(a: Post, b: Post)
  {
    && a.publishDate.year == b.publishDate.year
    && a.publishDate.month == b.publishDate.month
    && a.publishDate.day == b.publishDate.day
    && a.slug == b.slug
  }
}
