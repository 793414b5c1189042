/**
 * The context processors of blog/context_processors.py: the
 * `context_processor` decorator's dispatch, the 1-based pagination slice,
 * the dictionary `blog_posts_processor` assembles, and the single-object
 * look-ups behind the post, category and series processors.
 */
module ContextProcessors {
  import opened Wrappers
  import opened Records
  import opened Managers
  import opened TemplateValues

  // ---------------------------------------------------------------------------
  // `context_processor` / `cp_wrapper`

  /** A call of the decorated target: positional and keyword arguments. */
  datatype Call<A> = Call(args: seq<A>, kwargs: map<string, A>)

  /** What `cp_wrapper` returns: the target's call made now, or a closure awaiting the request. */
  datatype Dispatch<A> = Immediate(call: Call<A>) | Deferred(args: seq<A>, kwargs: map<string, A>)

  /** The shapes of a call that already carries the request. */
  predicate CarriesRequest<A>(args: seq<A>, kwargs: map<string, A>)
  {
    (|args| == 1 && |kwargs| == 0) || (|args| == 0 && |kwargs| == 1 && "request" in kwargs)
  }

  /**
   * `cp_wrapper`: a call that already carries the request runs the target at
   * once with its arguments untouched; any other call is kept for later.
   */
  function CpWrapper<A>(args: seq<A>, kwargs: map<string, A>): (r: Dispatch<A>)
    ensures r.Immediate? <==> CarriesRequest(args, kwargs)
    ensures r.Immediate? ==> r.call == Call(args, kwargs)
    ensures r.Deferred? ==> r.args == args && r.kwargs == kwargs
  {
    if CarriesRequest(args, kwargs) then
      Immediate(Call(args, kwargs))
    else
      Deferred(args, kwargs)
  }

  /** `get_processor(request)`: the request goes first, before the stored arguments. */
  function GetProcessor<A>(d: Dispatch<A>, request: A): Call<A>
    requires d.Deferred?
  {
    Call([request] + d.args, d.kwargs)
  }

  /** The call that finally reaches the target, once the request is known. */
  function TargetCall<A>(d: Dispatch<A>, request: A): Call<A>
  {
    match d
    case Immediate(c) => c
    case Deferred(_, _) => GetProcessor(d, request)
  }

  /**
   * The target runs at once exactly for the two request-carrying shapes, with
   * the arguments unchanged; otherwise it later receives the request in front
   * of the stored arguments. Either way it is called with a request.
   */
  lemma DispatchRule<A>(args: seq<A>, kwargs: map<string, A>, request: A)
    ensures CpWrapper(args, kwargs).Immediate? <==> CarriesRequest(args, kwargs)
    ensures CarriesRequest(args, kwargs) ==> TargetCall(CpWrapper(args, kwargs), request) == Call(args, kwargs)
    ensures !CarriesRequest(args, kwargs) ==>
      TargetCall(CpWrapper(args, kwargs), request) == Call([request] + args, kwargs)
    ensures var c := TargetCall(CpWrapper(args, kwargs), request);
      |c.args| >= 1 || "request" in c.kwargs
  {
  }

  // ---------------------------------------------------------------------------
  // Pagination

  function Min(a: int, b: int): int
  {
    if a <= b then a else b
  }

  function Max(a: int, b: int): int
  {
    if a >= b then a else b
  }

  /**
   * `queryset[start:stop]` (`stop` absent for `[start:]`): a negative bound
   * fails, bounds past the end are clipped.
   */
  function Slice<T>(s: seq<T>, start: int, stop: Option<int>): (r: Result<seq<T>, Error>)
    ensures r.Failure? <==> start < 0 || (stop.Some? && stop.value < 0)
    ensures r.Failure? ==> r.error == NegativeIndexing
    ensures r.Success? ==>
      var hi := if stop.Some? then Min(stop.value, |s|) else |s|;
      && |r.value| == Max(0, hi - start)
      && forall i :: 0 <= i < |r.value| ==> r.value[i] == s[start + i]
  {
    if start < 0 || (stop.Some? && stop.value < 0) then Failure(NegativeIndexing)
    else
      var hi := if stop.Some? then Min(stop.value, |s|) else |s|;
      var lo := Min(start, hi);
      Success(s[lo..hi])
  }

  /**
   * The slice `blog_posts_processor` takes: `[start_post-1:max_posts]` when
   * `max_posts` is given, `[start_post-1:]` when only `start_post` is, the
   * whole list when neither is. `None - 1` is a `TypeError`.
   */
  function Paginate<T>(s: seq<T>, startPost: Option<int>, maxPosts: Option<int>): (r: Result<seq<T>, Error>)
    ensures r == Failure(TypeError) <==> maxPosts.Some? && startPost.None?
    ensures r == Failure(NegativeIndexing) <==>
      startPost.Some? && (startPost.value < 1 || (maxPosts.Some? && maxPosts.value < 0))
    ensures r.Success? ==>
      var lo := if startPost.Some? then startPost.value - 1 else 0;
      && |r.value| <= |s|
      && (maxPosts.Some? ==> |r.value| <= maxPosts.value)
      && forall i :: 0 <= i < |r.value| ==> lo + i < |s| && r.value[i] == s[lo + i]
    ensures startPost.None? && maxPosts.None? ==> r == Success(s)
  {
    if maxPosts.Some? then
      if startPost.None? then Failure(TypeError) else Slice(s, startPost.value - 1, maxPosts)
    else if startPost.Some? then Slice(s, startPost.value - 1, None)
    else Success(s)
  }

  /**
   * With `max_posts` given and `start_post >= 1`, the page holds the posts
   * from position `start_post - 1` up to `min(max_posts, n)`, and never fails
   * for a non-negative `max_posts`; without `max_posts` it is the suffix, and
   * the default `start_post = 1` keeps everything.
   */
  lemma PageContents<T>(s: seq<T>, startPost: int, maxPosts: Option<int>)
    requires startPost >= 1
    ensures maxPosts.Some? && maxPosts.value >= 0 ==>
      && Paginate(s, Some(startPost), maxPosts).Success?
      && |Paginate(s, Some(startPost), maxPosts).value| == Max(0, Min(maxPosts.value, |s|) - (startPost - 1))
      && (startPost - 1 <= Min(maxPosts.value, |s|) ==>
            Paginate(s, Some(startPost), maxPosts).value == s[startPost - 1..Min(maxPosts.value, |s|)])
    ensures maxPosts.None? ==>
      Paginate(s, Some(startPost), None) == Success(if startPost - 1 <= |s| then s[startPost - 1..] else [])
    ensures Paginate(s, Some(1), None) == Success(s)
  {
    if maxPosts.Some? && maxPosts.value >= 0 {
      var hi := Min(maxPosts.value, |s|);
      var page := Paginate(s, Some(startPost), maxPosts).value;
      if startPost - 1 <= hi {
        assert page == s[startPost - 1..hi];
      }
    }
    if startPost - 1 <= |s| {
      assert Slice(s, startPost - 1, None).value == s[startPost - 1..];
    } else {
      assert |Slice(s, startPost - 1, None).value| == 0;
    }
    assert Slice(s, 0, None).value == s[0..] == s;
  }

  /** A page followed by the rest from where it stops is the suffix from where it starts. */
  lemma PagesTile<T>(s: seq<T>, i: nat, j: nat)
    requires i <= j <= |s|
    ensures Slice(s, i, Some(j)).Success? && Slice(s, j, None).Success? && Slice(s, i, None).Success?
    ensures Slice(s, i, Some(j)).value + Slice(s, j, None).value == Slice(s, i, None).value
  {
    assert s[i..j] + s[j..] == s[i..];
  }

  // ---------------------------------------------------------------------------
  // Single-object look-ups

  /** `Category.objects.get(slug=slug)` and `get_object_or_404(Category, slug=...)`. */
  function LookupCategory(categories: seq<Category>, slug: string): (r: Result<Category, Error>)
    ensures r.Success? ==> r.value in categories && r.value.slug == slug
    ensures r == Failure(NotFound) <==> forall c :: c in categories ==> c.slug != slug
    ensures r.Failure? ==> r.error == NotFound || r.error == MultipleObjectsReturned
    ensures r == Failure(MultipleObjectsReturned) <==> |Filter(categories, (c: Category) => c.slug == slug)| > 1
    ensures r.Success? <==> |Filter(categories, (c: Category) => c.slug == slug)| == 1
  {
    GetOne(categories, (c: Category) => c.slug == slug)
  }

  function LookupSeries(series: seq<Series>, slug: string): (r: Result<Series, Error>)
    ensures r.Success? ==> r.value in series && r.value.slug == slug
    ensures r == Failure(NotFound) <==> forall s :: s in series ==> s.slug != slug
    ensures r.Failure? ==> r.error == NotFound || r.error == MultipleObjectsReturned
    ensures r == Failure(MultipleObjectsReturned) <==> |Filter(series, (s: Series) => s.slug == slug)| > 1
    ensures r.Success? <==> |Filter(series, (s: Series) => s.slug == slug)| == 1
  {
    GetOne(series, (s: Series) => s.slug == slug)
  }

  predicate UniqueCategorySlugs(categories: seq<Category>)
  {
    forall i, j :: 0 <= i < j < |categories| ==> categories[i].slug != categories[j].slug
  }

  predicate UniqueSeriesSlugs(series: seq<Series>)
  {
    forall i, j :: 0 <= i < j < |series| ==> series[i].slug != series[j].slug
  }

  /**
   * `blog_category_processor`: with unique slugs, the category with the slug,
   * or not-found when there is none.
   */
  lemma CategoryDetail(categories: seq<Category>, slug: string)
    requires UniqueCategorySlugs(categories)
    ensures LookupCategory(categories, slug).Success? <==> exists c :: c in categories && c.slug == slug
    ensures LookupCategory(categories, slug).Success? ==>
      LookupCategory(categories, slug).value in categories && LookupCategory(categories, slug).value.slug == slug
    ensures LookupCategory(categories, slug).Failure? ==> LookupCategory(categories, slug).error == NotFound
  {
    FilterAtMostOne(categories, (c: Category) => c.slug == slug);
  }

  /** `blog_series_processor`, likewise. */
  lemma SeriesDetail(series: seq<Series>, slug: string)
    requires UniqueSeriesSlugs(series)
    ensures LookupSeries(series, slug).Success? <==> exists s :: s in series && s.slug == slug
    ensures LookupSeries(series, slug).Success? ==>
      LookupSeries(series, slug).value in series && LookupSeries(series, slug).value.slug == slug
    ensures LookupSeries(series, slug).Failure? ==> LookupSeries(series, slug).error == NotFound
  {
    FilterAtMostOne(series, (s: Series) => s.slug == slug);
  }

  /**
   * The filter of `blog_post_processor`: the date and slug, and for a
   * non-staff caller `is_published` too, with no test of the publish date
   * against now.
   */
  predicate PostKey(isStaff: bool, year: int, month: int, day: int, slug: string, p: Post)
  {
    && (!isStaff ==> p.isPublished)
    && p.publishDate.year == year && p.publishDate.month == month && p.publishDate.day == day
    && p.slug == slug
  }

  /** `blog_post_processor`'s `Post.objects.get(...)`; `DoesNotExist` becomes `Http404`. */
  function LookupPost(db: seq<Post>, isStaff: bool, year: int, month: int, day: int, slug: string): (r: Result<Post, Error>)
    ensures r.Success? ==> r.value in db && PostKey(isStaff, year, month, day, slug, r.value)
    ensures r == Failure(NotFound) <==> forall p :: p in db ==> !PostKey(isStaff, year, month, day, slug, p)
    ensures r.Failure? ==> r.error == NotFound || r.error == MultipleObjectsReturned
    ensures r == Failure(MultipleObjectsReturned) <==>
      |Filter(db, (p: Post) => PostKey(isStaff, year, month, day, slug, p))| > 1
    ensures r.Success? <==> |Filter(db, (p: Post) => PostKey(isStaff, year, month, day, slug, p))| == 1
  {
    GetOne(db, (p: Post) => PostKey(isStaff, year, month, day, slug, p))
  }

  /**
   * Under `unique_for_date`, the look-up yields the one post with that date
   * and slug (published, for a non-staff caller) or not-found; it never
   * reports several.
   */
  lemma PostDetail(db: seq<Post>, isStaff: bool, year: int, month: int, day: int, slug: string)
    requires SlugUniquePerDate(db)
    ensures LookupPost(db, isStaff, year, month, day, slug) != Failure(MultipleObjectsReturned)
    ensures LookupPost(db, isStaff, year, month, day, slug).Success? <==>
      exists p :: p in db && PostKey(isStaff, year, month, day, slug, p)
    ensures LookupPost(db, isStaff, year, month, day, slug).Success? ==>
      var p := LookupPost(db, isStaff, year, month, day, slug).value;
      p in db && PostKey(isStaff, year, month, day, slug, p)
  {
    FilterAtMostOne(db, (p: Post) => PostKey(isStaff, year, month, day, slug, p));
  }

  /** A published post dated in the future is still found by a non-staff caller. */
  lemma PostDetailIgnoresNow(db: seq<Post>, p: Post)
    requires SlugUniquePerDate(db) && p in db && p.isPublished
    ensures LookupPost(db, false, p.publishDate.year, p.publishDate.month, p.publishDate.day, p.slug) == Success(p)
  {
    var d := p.publishDate;
    var keep := (q: Post) => PostKey(false, d.year, d.month, d.day, p.slug, q);
    FilterAtMostOne(db, keep);
    assert p in Filter(db, keep);
  }

  // ---------------------------------------------------------------------------
  // `blog_posts_processor`

  /** The keyword arguments of `blog_posts_processor`. */
  datatype PostsArgs = PostsArgs(
    year: Option<int>,
    month: Option<int>,
    categorySlug: Option<string>,
    seriesSlug: Option<string>,
    tag: Option<string>,
    requireFeatured: bool,
    startPost: Option<int>,
    maxPosts: Option<int>,
    postsName: string,
    yearName: string,
    monthName: string,
    categoryName: string,
    seriesName: string,
    tagName: string)

  /** The defaults of every keyword argument. */
  const DefaultPostsArgs := PostsArgs(None, None, None, None, None, false, Some(1), None,
                                      "posts", "year", "month", "category", "series", "tag")

  /** The `build_query` call: drafts and future posts hidden unless the user is staff. */
  function PostsQuery(isStaff: bool, a: PostsArgs): Query
  {
    Query(!isStaff, a.year, a.month, a.categorySlug, a.seriesSlug, a.tag, a.requireFeatured)
  }

  /** The keys the dictionary holds. */
  function ContextNames(a: PostsArgs): set<string>
  {
    {a.postsName}
    + (if GivenInt(a.year) then {a.yearName} else {})
    + (if GivenInt(a.year) && GivenInt(a.month) then {a.monthName} else {})
    + (if GivenStr(a.categorySlug) then {a.categoryName} else {})
    + (if GivenStr(a.seriesSlug) then {a.seriesName} else {})
    + (if GivenStr(a.tag) then {a.tagName} else {})
  }

  /** The six context names of the keyword arguments, in order. */
  function Names(a: PostsArgs): seq<string>
  {
    [a.postsName, a.yearName, a.monthName, a.categoryName, a.seriesName, a.tagName]
  }

  predicate DistinctNames(a: PostsArgs)
  {
    forall i, j :: 0 <= i < j < |Names(a)| ==> Names(a)[i] != Names(a)[j]
  }

  /**
   * The dictionary `blog_posts_processor` returns once the page and the
   * look-ups are known: later assignments win where two names coincide.
   */
  function PostsContext(a: PostsArgs, page: seq<Post>,
                        category: Result<Category, Error>, series: Result<Series, Error>): map<string, Value>
  {
    var c0 := map[a.postsName := PostList(page)];
    var c1 := if GivenInt(a.year) then c0[a.yearName := Number(a.year.value)] else c0;
    var c2 := if GivenInt(a.year) && GivenInt(a.month) then c1[a.monthName := Number(a.month.value)] else c1;
    var c3 := if GivenStr(a.categorySlug) && category.Success? then c2[a.categoryName := CategoryValue(category.value)] else c2;
    var c4 := if GivenStr(a.seriesSlug) && series.Success? then c3[a.seriesName := SeriesValue(series.value)] else c3;
    if GivenStr(a.tag) then c4[a.tagName := Str(a.tag.value)] else c4
  }

  /**
   * The outcome of the processor: the slice's error first, then the
   * category's, then the series'. It succeeds exactly when the slice and
   * every look-up it makes succeed, and its keys are then `ContextNames`; a
   * look-up it does not make cannot fail it.
   */
  function PostsOutcome(a: PostsArgs, page: Result<seq<Post>, Error>,
                        category: Result<Category, Error>, series: Result<Series, Error>): (r: Result<map<string, Value>, Error>)
    ensures r.Success? <==>
      page.Success? && (GivenStr(a.categorySlug) ==> category.Success?) && (GivenStr(a.seriesSlug) ==> series.Success?)
    ensures r.Success? ==> r.value.Keys == ContextNames(a)
    ensures page.Failure? ==> r == Failure(page.error)
    ensures page.Success? && GivenStr(a.categorySlug) && category.Failure? ==> r == Failure(category.error)
    ensures page.Success? && (GivenStr(a.categorySlug) ==> category.Success?) && GivenStr(a.seriesSlug) && series.Failure? ==>
      r == Failure(series.error)
  {
    if page.Failure? then Failure(page.error)
    else if GivenStr(a.categorySlug) && category.Failure? then Failure(category.error)
    else if GivenStr(a.seriesSlug) && series.Failure? then Failure(series.error)
    else
      PostsContextKeys(a, page.value, category, series);
      Success(PostsContext(a, page.value, category, series))
  }

  /** The category look-up the processor makes, when a slug is given. */
  function CategoryFor(categories: seq<Category>, a: PostsArgs): Result<Category, Error>
  {
    if GivenStr(a.categorySlug) then LookupCategory(categories, a.categorySlug.value) else Failure(NotFound)
  }

  function SeriesFor(series: seq<Series>, a: PostsArgs): Result<Series, Error>
  {
    if GivenStr(a.seriesSlug) then LookupSeries(series, a.seriesSlug.value) else Failure(NotFound)
  }

  /**
   * `blog_posts_processor` for a user whose staff flag is `isStaff`: the
   * page of `build_query`'s posts, then the dictionary, which a failed look-up
   * aborts.
   */
  method BlogPostsProcessor(db: seq<Post>, categories: seq<Category>, series: seq<Series>,
                            isStaff: bool, now: DateTime, a: PostsArgs)
    returns (r: Result<map<string, Value>, Error>)
    ensures r == PostsOutcome(a, Paginate(BuildQuery(AllPosts(db), PostsQuery(isStaff, a), now), a.startPost, a.maxPosts),
                              CategoryFor(categories, a), SeriesFor(series, a))
  {
    var posts := BuildQuery(AllPosts(db), PostsQuery(isStaff, a), now);
    var page := Paginate(posts, a.startPost, a.maxPosts);
    if page.Failure? {
      return Failure(page.error);
    }
    var c: map<string, Value> := map[a.postsName := PostList(page.value)];
    if GivenInt(a.year) {
      c := c[a.yearName := Number(a.year.value)];
      if GivenInt(a.month) {
        c := c[a.monthName := Number(a.month.value)];
      }
    }
    var category: Result<Category, Error> := Failure(NotFound);
    if GivenStr(a.categorySlug) {
      category := LookupCategory(categories, a.categorySlug.value);
      if category.Failure? {
        return Failure(category.error);
      }
      c := c[a.categoryName := CategoryValue(category.value)];
    }
    var found: Result<Series, Error> := Failure(NotFound);
    if GivenStr(a.seriesSlug) {
      found := LookupSeries(series, a.seriesSlug.value);
      if found.Failure? {
        return Failure(found.error);
      }
      c := c[a.seriesName := SeriesValue(found.value)];
    }
    if GivenStr(a.tag) {
      c := c[a.tagName := Str(a.tag.value)];
    }
    r := Success(c);
  }

  /**
   * The dictionary's keys are the posts name and, each only when its
   * argument is given, the year, month (with a year), category, series and
   * tag names; with distinct names each holds its own value.
   */
  lemma PostsContextEntries(a: PostsArgs, page: seq<Post>, category: Category, series: Series)
    requires DistinctNames(a)
    ensures var c := PostsContext(a, page, Success(category), Success(series));
      && c.Keys == ContextNames(a)
      && c[a.postsName] == PostList(page)
      && (GivenInt(a.year) ==> c[a.yearName] == Number(a.year.value))
      && (GivenInt(a.year) && GivenInt(a.month) ==> c[a.monthName] == Number(a.month.value))
      && (GivenStr(a.categorySlug) ==> c[a.categoryName] == CategoryValue(category))
      && (GivenStr(a.seriesSlug) ==> c[a.seriesName] == SeriesValue(series))
      && (GivenStr(a.tag) ==> c[a.tagName] == Str(a.tag.value))
  {
    var n := Names(a);
    assert n[0] != n[1] && n[0] != n[2] && n[0] != n[3] && n[0] != n[4] && n[0] != n[5];
    assert n[1] != n[2] && n[1] != n[3] && n[1] != n[4] && n[1] != n[5];
    assert n[2] != n[3] && n[2] != n[4] && n[2] != n[5];
    assert n[3] != n[4] && n[3] != n[5] && n[4] != n[5];
  }

  /** The keys alone do not depend on the names being distinct. */
  lemma PostsContextKeys(a: PostsArgs, page: seq<Post>, category: Result<Category, Error>, series: Result<Series, Error>)
    requires GivenStr(a.categorySlug) ==> category.Success?
    requires GivenStr(a.seriesSlug) ==> series.Success?
    ensures PostsContext(a, page, category, series).Keys == ContextNames(a)
    ensures a.postsName in ContextNames(a)
    ensures !GivenInt(a.year) && !GivenStr(a.categorySlug) && !GivenStr(a.seriesSlug) && !GivenStr(a.tag) ==>
      ContextNames(a) == {a.postsName}
  {
  }

  /**
   * The processor's posts are `build_query` with `require_published = not is_staff`:
   * a non-staff page holds only visible posts, and with the default
   * arguments the page is every matching post.
   */
  lemma StaffVisibility(db: seq<Post>, isStaff: bool, now: DateTime, a: PostsArgs)
    ensures !isStaff ==> forall p :: p in BuildQuery(AllPosts(db), PostsQuery(isStaff, a), now) ==> Visible(p, now)
    ensures Paginate(BuildQuery(AllPosts(db), PostsQuery(isStaff, DefaultPostsArgs), now), Some(1), None)
         == Success(BuildQuery(AllPosts(db), PostsQuery(isStaff, DefaultPostsArgs), now))
  {
    VisibilityRule(AllPosts(db), PostsQuery(isStaff, a), now);
    PageContents(BuildQuery(AllPosts(db), PostsQuery(isStaff, DefaultPostsArgs), now), 1, None);
  }
}
