/**
 * The post query builder of blog/managers.py: the default ordering of the
 * post table, the narrowing filters of `PostManager.build_query`, the two
 * shortcuts built on it, `PublishedPostManager` and the gallery filter of
 * `PostImageManager`.
 */
module Managers {
  import opened Wrappers
  import opened Records

  /** Inserts `p` before the first post that is not newer than it (stable). */
  function InsertByDate(p: Post, s: seq<Post>): (r: seq<Post>)
    ensures multiset(r) == multiset(s) + multiset{p}
    ensures |r| == |s| + 1
    ensures r[0] == p || (s != [] && r[0] == s[0])
  {
    if s == [] || !Before(p.publishDate, s[0].publishDate) then [p] + s
    else
      assert s == [s[0]] + s[1..];
      [s[0]] + InsertByDate(p, s[1..])
  }

  lemma AtOrBeforeTransitive(a: DateTime, b: DateTime, c: DateTime)
    requires AtOrBefore(a, b) && AtOrBefore(b, c)
    ensures AtOrBefore(a, c)
  {
  }

  /** A post no older than the head of a newest-first list can go in front of it. */
  lemma ConsNewestFirst(x: Post, rest: seq<Post>)
    requires NewestFirst(rest)
    requires rest != [] ==> AtOrBefore(rest[0].publishDate, x.publishDate)
    ensures NewestFirst([x] + rest)
  {
    forall j | 1 <= j < |rest| {
      AtOrBeforeTransitive(rest[j].publishDate, rest[0].publishDate, x.publishDate);
    }
  }

  lemma {:induction false} InsertKeepsOrder(p: Post, s: seq<Post>)
    requires NewestFirst(s)
    ensures NewestFirst(InsertByDate(p, s))
  {
    if s == [] {
    } else if !Before(p.publishDate, s[0].publishDate) {
      ConsNewestFirst(p, s);
    } else {
      assert NewestFirst(s[1..]);
      InsertKeepsOrder(p, s[1..]);
      ConsNewestFirst(s[0], InsertByDate(p, s[1..]));
    }
  }

  /**
   * `Meta.ordering = ('-publish_date',)`, which every post query carries:
   * the stored posts, newest first, ties in storage order.
   */
  function OrderByNewest(s: seq<Post>): (r: seq<Post>)
    ensures NewestFirst(r)
    ensures multiset(r) == multiset(s)
  {
    if s == [] then []
    else
      assert s == [s[0]] + s[1..];
      InsertKeepsOrder(s[0], OrderByNewest(s[1..]));
      InsertByDate(s[0], OrderByNewest(s[1..]))
  }

  /** `Post.objects.get_query_set()`: all stored posts in the default order. */
  function AllPosts(db: seq<Post>): (r: seq<Post>)
    ensures NewestFirst(r) && multiset(r) == multiset(db)
    ensures forall p :: p in r <==> p in db
  {
    var r := OrderByNewest(db);
    assert forall p :: p in r <==> p in multiset(r);
    r
  }

  /** The keyword arguments of `build_query`. */
  datatype Query = Query(
    requirePublished: bool,
    year: Option<int>,
    month: Option<int>,
    categorySlug: Option<string>,
    seriesSlug: Option<string>,
    tag: Option<string>,
    requireFeatured: bool)

  /** `build_query()` called with all its defaults. */
  const DefaultQuery := Query(true, None, None, None, None, None, false)

  /** The public-visibility test: published and dated strictly before now. */
  predicate Visible(p: Post, now: DateTime)
  {
    p.isPublished && Before(p.publishDate, now)
  }

  function ByVisibility(posts: seq<Post>, requirePublished: bool, now: DateTime): seq<Post>
  {
    if requirePublished then Filter(posts, p => Visible(p, now)) else posts
  }

  function ByFeatured(posts: seq<Post>, requireFeatured: bool): seq<Post>
  {
    if requireFeatured then Filter(posts, (p: Post) => p.isFeatured) else posts
  }

  /** The year filter, and the month filter nested inside it. */
  function ByDate(posts: seq<Post>, year: Option<int>, month: Option<int>): seq<Post>
  {
    if GivenInt(year) then
      var inYear := Filter(posts, (p: Post) => p.publishDate.year == year.value);
      if GivenInt(month) then Filter(inYear, (p: Post) => p.publishDate.month == month.value)
      else inYear
    else posts
  }

  function ByCategory(posts: seq<Post>, slug: Option<string>): seq<Post>
  {
    if GivenStr(slug) then Filter(posts, (p: Post) => slug.value in p.categories) else posts
  }

  function BySeries(posts: seq<Post>, slug: Option<string>): seq<Post>
  {
    if GivenStr(slug) then Filter(posts, (p: Post) => p.series == Some(slug.value)) else posts
  }

  /** `TaggedItem.objects.get_by_model(posts, [tag])`: the posts carrying the tag. */
  function ByTag(posts: seq<Post>, tag: Option<string>): seq<Post>
  {
    if GivenStr(tag) then Filter(posts, (p: Post) => tag.value in p.tags) else posts
  }

  /**
   * `build_query` over the manager's base query set: visibility, featured,
   * date, category, series, and tag last, each narrowing the previous result.
   * The staged narrowing equals one filter by the conjunction of all the tests.
   */
  function BuildQuery(base: seq<Post>, q: Query, now: DateTime): (r: seq<Post>)
    ensures r == Filter(base, p => Matches(q, now, p))
  {
    var m1 := (p: Post) => q.requirePublished ==> Visible(p, now);
    var m2 := (p: Post) => m1(p) && (q.requireFeatured ==> p.isFeatured);
    var m3 := (p: Post) => MatchesUpToDate(q, now, p);
    var m4 := (p: Post) => m3(p) && (GivenStr(q.categorySlug) ==> q.categorySlug.value in p.categories);
    var m5 := (p: Post) => m4(p) && (GivenStr(q.seriesSlug) ==> p.series == Some(q.seriesSlug.value));
    var m6 := (p: Post) => Matches(q, now, p);
    StageVisibility(base, q.requirePublished, now, m1);
    StageFeatured(base, q.requireFeatured, m1, m2);
    StageDate(base, q.year, q.month, m2, m3);
    StageCategory(base, q.categorySlug, m3, m4);
    StageSeries(base, q.seriesSlug, m4, m5);
    StageTag(base, q.tag, m5, m6);
    var visible := ByVisibility(base, q.requirePublished, now);
    var featured := ByFeatured(visible, q.requireFeatured);
    var dated := ByDate(featured, q.year, q.month);
    var categorised := ByCategory(dated, q.categorySlug);
    var inSeries := BySeries(categorised, q.seriesSlug);
    ByTag(inSeries, q.tag)
  }

  /** The reference definition: everything a post must satisfy to be returned. */
  predicate Matches(q: Query, now: DateTime, p: Post)
  {
    && MatchesUpToDate(q, now, p)
    && (GivenStr(q.categorySlug) ==> q.categorySlug.value in p.categories)
    && (GivenStr(q.seriesSlug) ==> p.series == Some(q.seriesSlug.value))
    && (GivenStr(q.tag) ==> q.tag.value in p.tags)
  }

  predicate MatchesUpToDate(q: Query, now: DateTime, p: Post)
  {
    && (q.requirePublished ==> Visible(p, now))
    && (q.requireFeatured ==> p.isFeatured)
    && (GivenInt(q.year) ==> p.publishDate.year == q.year.value)
    && (GivenInt(q.year) && GivenInt(q.month) ==> p.publishDate.month == q.month.value)
  }

  lemma StageVisibility(base: seq<Post>, requirePublished: bool, now: DateTime, g: Post -> bool)
    requires forall p :: g(p) == (requirePublished ==> Visible(p, now))
    ensures ByVisibility(base, requirePublished, now) == Filter(base, g)
  {
    if requirePublished {
      FilterExt(base, p => Visible(p, now), g);
    } else {
      FilterAll(base, g);
    }
  }

  lemma StageFeatured(base: seq<Post>, requireFeatured: bool, f: Post -> bool, g: Post -> bool)
    requires forall p :: g(p) == (f(p) && (requireFeatured ==> p.isFeatured))
    ensures ByFeatured(Filter(base, f), requireFeatured) == Filter(base, g)
  {
    if requireFeatured {
      FilterFuse(base, f, (p: Post) => p.isFeatured, g);
    } else {
      FilterExt(base, f, g);
    }
  }

  lemma StageDate(base: seq<Post>, year: Option<int>, month: Option<int>, f: Post -> bool, g: Post -> bool)
    requires forall p :: g(p) == (&& f(p)
                                  && (GivenInt(year) ==> p.publishDate.year == year.value)
                                  && (GivenInt(year) && GivenInt(month) ==> p.publishDate.month == month.value))
    ensures ByDate(Filter(base, f), year, month) == Filter(base, g)
  {
    if GivenInt(year) {
      var inYear := (p: Post) => f(p) && p.publishDate.year == year.value;
      FilterFuse(base, f, (p: Post) => p.publishDate.year == year.value, inYear);
      if GivenInt(month) {
        FilterFuse(base, inYear, (p: Post) => p.publishDate.month == month.value, g);
      } else {
        FilterExt(base, inYear, g);
      }
    } else {
      FilterExt(base, f, g);
    }
  }

  lemma StageCategory(base: seq<Post>, slug: Option<string>, f: Post -> bool, g: Post -> bool)
    requires forall p :: g(p) == (f(p) && (GivenStr(slug) ==> slug.value in p.categories))
    ensures ByCategory(Filter(base, f), slug) == Filter(base, g)
  {
    if GivenStr(slug) {
      FilterFuse(base, f, (p: Post) => slug.value in p.categories, g);
    } else {
      FilterExt(base, f, g);
    }
  }

  lemma StageSeries(base: seq<Post>, slug: Option<string>, f: Post -> bool, g: Post -> bool)
    requires forall p :: g(p) == (f(p) && (GivenStr(slug) ==> p.series == Some(slug.value)))
    ensures BySeries(Filter(base, f), slug) == Filter(base, g)
  {
    if GivenStr(slug) {
      FilterFuse(base, f, (p: Post) => p.series == Some(slug.value), g);
    } else {
      FilterExt(base, f, g);
    }
  }

  lemma StageTag(base: seq<Post>, tag: Option<string>, f: Post -> bool, g: Post -> bool)
    requires forall p :: g(p) == (f(p) && (GivenStr(tag) ==> tag.value in p.tags))
    ensures ByTag(Filter(base, f), tag) == Filter(base, g)
  {
    if GivenStr(tag) {
      FilterFuse(base, f, (p: Post) => tag.value in p.tags, g);
    } else {
      FilterExt(base, f, g);
    }
  }

  /** What comes back is exactly the base posts that pass every requested test. */
  lemma BuildQueryMembership(base: seq<Post>, q: Query, now: DateTime)
    ensures forall p :: p in BuildQuery(base, q, now) <==> p in base && Matches(q, now, p)
    ensures multiset(BuildQuery(base, q, now)) <= multiset(base)
  {
    FilterSubMultiset(base, p => Matches(q, now, p));
  }

  /**
   * With `require_published` every result is published and dated strictly
   * before now; without it, visibility filters nothing out.
   */
  lemma VisibilityRule(base: seq<Post>, q: Query, now: DateTime)
    ensures q.requirePublished ==>
      forall p :: p in BuildQuery(base, q, now) ==> p.isPublished && Before(p.publishDate, now)
    ensures !q.requirePublished ==>
      forall p :: p in BuildQuery(base, q, now) <==>
        p in BuildQuery(base, q.(requirePublished := true), now) || (p in base && Matches(q, now, p) && !Visible(p, now))
  {
    BuildQueryMembership(base, q, now);
    BuildQueryMembership(base, q.(requirePublished := true), now);
  }

  /** `q2` asks for everything `q1` asks for, and possibly more. */
  predicate Narrower(q2: Query, q1: Query)
  {
    && (q1.requirePublished ==> q2.requirePublished)
    && (q1.requireFeatured ==> q2.requireFeatured)
    && (GivenInt(q1.year) ==> q2.year == q1.year)
    && (GivenInt(q1.year) && GivenInt(q1.month) ==> q2.month == q1.month)
    && (GivenStr(q1.categorySlug) ==> q2.categorySlug == q1.categorySlug)
    && (GivenStr(q1.seriesSlug) ==> q2.seriesSlug == q1.seriesSlug)
    && (GivenStr(q1.tag) ==> q2.tag == q1.tag)
  }

  /** Adding filters only narrows: the narrower result is a filter of the broader one. */
  lemma NarrowingNeverAdds(base: seq<Post>, q1: Query, q2: Query, now: DateTime)
    requires Narrower(q2, q1)
    ensures BuildQuery(base, q2, now) == Filter(BuildQuery(base, q1, now), p => Matches(q2, now, p))
    ensures forall p :: p in BuildQuery(base, q2, now) ==> p in BuildQuery(base, q1, now)
  {
    FilterFuse(base, p => Matches(q1, now, p), p => Matches(q2, now, p), p => Matches(q2, now, p));
  }

  /** A month without a year is ignored. */
  lemma MonthNeedsYear(base: seq<Post>, q: Query, now: DateTime)
    requires !GivenInt(q.year)
    ensures BuildQuery(base, q, now) == BuildQuery(base, q.(month := None), now)
  {
  }

  /** The tag filter runs last, over the already narrowed result. */
  lemma TagFilterLast(base: seq<Post>, q: Query, now: DateTime)
    requires GivenStr(q.tag)
    ensures BuildQuery(base, q, now)
         == Filter(BuildQuery(base, q.(tag := None), now), (p: Post) => q.tag.value in p.tags)
  {
  }

  /** A result drawn from newest-first posts is itself newest first. */
  lemma BuildQueryKeepsOrder(base: seq<Post>, q: Query, now: DateTime)
    requires NewestFirst(base)
    ensures NewestFirst(BuildQuery(base, q, now))
  {
    FilterKeepsOrder(base, p => Matches(q, now, p));
  }

  /** `get_published_posts`: exactly the visible posts of the base, in its order. */
  function GetPublishedPosts(base: seq<Post>, now: DateTime): (r: seq<Post>)
    ensures r == Filter(base, p => Visible(p, now))
    ensures forall p :: p in r <==> p in base && Visible(p, now)
  {
    FilterExt(base, p => Matches(DefaultQuery, now, p), p => Visible(p, now));
    BuildQuery(base, DefaultQuery, now)
  }

  /** `get_featured_posts`: the published posts that are flagged featured. */
  function GetFeaturedPosts(base: seq<Post>, now: DateTime): (r: seq<Post>)
    ensures r == Filter(GetPublishedPosts(base, now), (p: Post) => p.isFeatured)
  {
    var q := DefaultQuery.(requireFeatured := true);
    FilterFuse(base, p => Visible(p, now), (p: Post) => p.isFeatured, p => Matches(q, now, p));
    BuildQuery(base, q, now)
  }

  /** `PublishedPostManager.get_query_set`: published posts, with no date gate. */
  function PublishedQuerySet(db: seq<Post>): (r: seq<Post>)
    ensures forall p :: p in r <==> p in db && p.isPublished
    ensures NewestFirst(r)
    ensures r == Filter(AllPosts(db), (p: Post) => p.isPublished)
  {
    assert forall p :: p in AllPosts(db) <==> p in multiset(AllPosts(db));
    FilterKeepsOrder(AllPosts(db), (p: Post) => p.isPublished);
    Filter(AllPosts(db), (p: Post) => p.isPublished)
  }

  /**
   * Through `Post.published`, a query that requires publication returns what
   * it returns through `Post.objects`; one that does not still hides drafts
   * but shows future-dated published posts.
   */
  lemma PublishedManagerQueries(db: seq<Post>, q: Query, now: DateTime)
    ensures q.requirePublished ==>
      BuildQuery(PublishedQuerySet(db), q, now) == BuildQuery(AllPosts(db), q, now)
    ensures forall p :: p in BuildQuery(PublishedQuerySet(db), q, now) <==>
      p in db && p.isPublished && Matches(q, now, p)
  {
    var all := AllPosts(db);
    assert forall p :: p in all <==> p in db by {
      forall p ensures p in all <==> p in db {
        assert p in all <==> p in multiset(all);
        assert p in db <==> p in multiset(db);
      }
    }
    BuildQueryMembership(PublishedQuerySet(db), q, now);
    if q.requirePublished {
      FilterFuse(all, (p: Post) => p.isPublished, p => Visible(p, now), p => Visible(p, now));
    }
  }

  /** `PostImageManager.get_gallery_images`: the images that have a gallery position. */
  function GetGalleryImages(images: seq<PostImage>): (r: seq<PostImage>)
    ensures forall i :: i in r <==> i in images && i.galleryPosition.Some?
    ensures multiset(r) <= multiset(images)
    ensures r == Filter(images, (i: PostImage) => i.galleryPosition.Some?)
  {
    FilterSubMultiset(images, (i: PostImage) => i.galleryPosition.Some?);
    Filter(images, (i: PostImage) => i.galleryPosition.Some?)
  }
}
