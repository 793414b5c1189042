# django-blogyall blog core, modelled in Dafny

This project models the sequential core of the django-blogyall blog application:

- the post query builder of `PostManager` and the year → month → day post archive;
- the context processors: the `context_processor` decorator, the 1-based pagination slice, the keys `blog_posts_processor` puts into its dictionary, and the single-post, category and series look-ups;
- the argument parsers of the template tags, `lit_or_val`'s handling of quoted literals, and the nodes that write into the template context;
- the `Post` and `PostImage` helpers: URL segments, the draft title, the category string, the image upload path and the search-engine ping decision in `save`.

Posts are values (`Records.Post`). The database is a `seq<Post>` in storage order. A Django query set is modelled as that sequence after the model's default ordering, newest first (`Managers.AllPosts`, a stable sort), and then narrowed by order-preserving filters (`Records.Filter`). "Now" is a parameter. `.get()` is `Records.GetOne`, which fails with `NotFound` or `MultipleObjectsReturned`. Python truthiness is kept: a year or month of `0` and an empty slug or tag count as "not given" (`Records.GivenInt`, `Records.GivenStr`).

The state-changing parts are modelled imperatively:

- `PostArchive.GetPostArchive` fills nested maps in one loop, then rebuilds them as lists sorted descending at each level. It is proved equal to the specification function `PostArchive.Archive`, whose partition, ordering and counting properties are proved as lemmas.
- `ContextProcessors.BlogPostsProcessor` inserts dictionary keys one by one.
- `Models.PostTable.Save` updates a table of stored posts and a ping counter.
- `BlogTags.TemplateContext` holds the template variables that the nodes' `render` methods assign.

Modules:

- `Wrappers`: `Option` and `Result`.
- `Records`: the entities, `Filter`, `GetOne` and their lemmas.
- `Text`: decimal formatting, zero padding, `join` and `split`.
- `Managers`: the query builder.
- `PostArchive`: the archive.
- `ContextProcessors`: the context processors.
- `BlogTags`: the template tags.
- `Models`: the model helpers.

Two places where the code differs from what its own surroundings suggest are modelled as written:

- The public-visibility filter tests `publish_date < now` (blog/managers.py:32). `save` tests `publish_date <= now` (blog/models.py:102). A post dated exactly now is pinged but not listed; `Models.PingedButNotVisible` states this.
- The non-staff single-post look-up checks `is_published` but not the publish date (blog/context_processors.py:98). A published post dated in the future is still found; `ContextProcessors.PostDetailIgnoresNow` states this.

## Model

| member | source | states |
|---|---|---|
| Records.GetOne | blog/context_processors.py:96-103 | `.get()`: not-found exactly when nothing matches, multiple exactly when more than one matches, and exactly one match gives success with that element |
| Records.FilterAtMostOne | blog/models.py:65 | when no two elements both match, a filter keeps at most one (the basis of slug-per-date uniqueness) |
| Records.FilterFuse | blog/managers.py:36-57 | two successive `.filter()` calls keep exactly what one filter on the conjunction keeps |
| Managers.OrderByNewest | blog/models.py:117-119 | the `-publish_date` default ordering: newest first and a permutation of the stored posts |
| Managers.InsertKeepsOrder | blog/models.py:117-119 | inserting one post by date into a newest-first list keeps it newest first |
| Managers.AllPosts | blog/models.py:117-119 | `Post.objects` in its default order: newest first, holding exactly the stored posts |
| Managers.StageVisibility | blog/managers.py:30-34 | the first stage keeps exactly the published posts dated strictly before now, or everything without `require_published` |
| Managers.StageFeatured | blog/managers.py:37-38 | the featured stage adds `is_featured` to the condition only when `require_featured` is `True` |
| Managers.StageDate | blog/managers.py:41-44 | the date stage adds the year and, only with a year, the month |
| Managers.StageCategory | blog/managers.py:47-48 | the category stage adds the category slug when one is given |
| Managers.StageSeries | blog/managers.py:49-50 | the series stage adds the series slug when one is given |
| Managers.StageTag | blog/managers.py:53-57 | the tag stage adds tag membership when a tag is given |
| Managers.BuildQuery | blog/managers.py:27-57 | `build_query`: the staged filters together equal one order-preserving filter of the base by `Matches`, the conjunction of every requested condition |
| Managers.BuildQueryMembership | blog/managers.py:27-57 | a post is returned if and only if it is in the base and meets every requested condition; the result is a sub-multiset of the base |
| Managers.VisibilityRule | blog/managers.py:30-34 | with `require_published` every returned post is published and dated strictly before now; without it, hidden posts are returned as well |
| Managers.NarrowingNeverAdds | blog/managers.py:36-57 | adding any filter (featured, year, month, category, series, tag) narrows the result and never adds a post |
| Managers.MonthNeedsYear | blog/managers.py:41-44 | a month without a year is ignored |
| Managers.TagFilterLast | blog/managers.py:53-55 | the tag filter applies last, to the result of all the other filters |
| Managers.BuildQueryKeepsOrder | blog/managers.py:27-57 | the result keeps the newest-first order of its base |
| Managers.GetPublishedPosts | blog/managers.py:59-63 | `get_published_posts` is exactly the visible posts of the base, in its order |
| Managers.GetFeaturedPosts | blog/managers.py:66-70 | `get_featured_posts` is the published list restricted to featured posts |
| Managers.PublishedQuerySet | blog/managers.py:127-132 | the `PublishedPostManager` query set holds exactly the published posts, newest first; it is the published posts of the default ordering, in that order |
| Managers.PublishedManagerQueries | blog/managers.py:127-132 | through `PublishedPostManager`, `build_query` returns the published posts meeting the query; with `require_published` it equals the plain manager's result |
| Managers.GetGalleryImages | blog/managers.py:13-19 | keeps exactly the images with a non-null gallery position, in their stored order |
| PostArchive.GetPostArchive | blog/managers.py:72-111 | the archive method equals `Archive` of the filtered, newest-first posts; it is well formed and counts every filtered post once |
| PostArchive.BucketPosts | blog/managers.py:86-94 | the bucketing loop leaves the nested maps that the fold `BucketsOf` describes |
| PostArchive.AppendPost | blog/managers.py:88-94 | one iteration: the missing year, month and day keys are created, then the post is appended to its day |
| PostArchive.BucketsOfBucketed | blog/managers.py:86-94 | after the loop each year, month and day key is present exactly when a post has that date, holding those posts in order |
| PostArchive.NestSorted | blog/managers.py:97-109 | re-nesting the maps with keys sorted in reverse gives `Archive` |
| PostArchive.NestMonths | blog/managers.py:100-106 | the months of a year, sorted in reverse, with their days |
| PostArchive.NestDays | blog/managers.py:104-109 | the days of a month, sorted in reverse, each extended with its posts |
| PostArchive.SortedDesc | blog/managers.py:97-98 | `sorted(keys, reverse=True)`: strictly descending and holding exactly the keys |
| PostArchive.DescendingUnique | blog/managers.py:97-105 | two strictly descending lists of the same keys are equal, so the method's sorting matches the specification |
| PostArchive.Archive | blog/managers.py:86-111 | the archive specification: year, month and day keys strictly descending at every level, no empty bucket, and an empty list exactly for no posts |
| PostArchive.ArchiveLeaves | blog/managers.py:87-94 | each day's list is exactly the input posts of that date, in input order |
| PostArchive.ArchiveCovers | blog/managers.py:86-111 | every input post is in some leaf |
| PostArchive.LeafOf | blog/managers.py:86-111 | gives the year, month and day positions of a leaf that holds the post |
| PostArchive.ArchiveLeafUnique | blog/managers.py:86-111 | no post is in two different leaves |
| PostArchive.ArchiveCount | blog/managers.py:86-111 | the leaf sizes sum to the number of input posts |
| PostArchive.ArchiveDayOrder | blog/managers.py:87-109 | from newest-first input, each day's posts are newest first |
| ContextProcessors.DispatchRule | blog/context_processors.py:28-36 | the target runs at once exactly for one positional argument, or for the single keyword `request`; otherwise the closure calls it with the request in front; the target always receives a request |
| ContextProcessors.CpWrapper | blog/context_processors.py:28-36 | `cp_wrapper` calls the target at once exactly when the call carries the request (one positional argument, or the single keyword `request`), with its arguments untouched; otherwise it keeps them for later |
| ContextProcessors.Slice | blog/context_processors.py:64-67 | a query-set slice fails on a negative bound, clips bounds past the end, and holds the elements from `start` onward |
| ContextProcessors.Paginate | blog/context_processors.py:64-67 | `max_posts` without `start_post` is a type error; a start below 1 or a negative `max_posts` is negative indexing; a page is a run of the list from `start_post - 1`, at most `max_posts` long; with neither given, the whole list |
| ContextProcessors.PageContents | blog/context_processors.py:64-67 | with `max_posts >= 0` and `start_post >= 1`: the posts from `start_post-1` up to `min(max_posts, n)`, of length `max(0, min(max_posts, n) - (start_post-1))`, never failing; otherwise the suffix; the default start keeps everything |
| ContextProcessors.PagesTile | blog/context_processors.py:64-67 | a page followed by the suffix from where it stops is the suffix from where it starts |
| ContextProcessors.BlogPostsProcessor | blog/context_processors.py:39-83 | the processor's result is `PostsOutcome` of the slice of `build_query(require_published = not is_staff, ...)` and the look-ups |
| ContextProcessors.PostsOutcome | blog/context_processors.py:64-83 | the processor succeeds exactly when the slice and the look-ups it makes succeed, a failed slice wins over a failed category look-up, which wins over a failed series look-up, each failing with its own error, and the keys of a success are `ContextNames` |
| ContextProcessors.PostsContextKeys | blog/context_processors.py:69-83 | the posts key is always present; with no year, category, series or tag it is the only key |
| ContextProcessors.PostsContextEntries | blog/context_processors.py:69-83 | with distinct names: year only with a year, month only with year and month, category, series and tag only when given, each holding its own value |
| ContextProcessors.StaffVisibility | blog/context_processors.py:59-67 | non-staff callers see only visible posts; the default arguments keep the whole result |
| ContextProcessors.PostDetail | blog/context_processors.py:86-103 | under slug-per-date uniqueness the look-up never reports several posts; it succeeds exactly when a post with that date and slug (published, for non-staff) exists |
| ContextProcessors.PostDetailIgnoresNow | blog/context_processors.py:96-101 | a published post is found by a non-staff caller whatever its publish date |
| ContextProcessors.LookupPost | blog/context_processors.py:93-103 | a found post is stored, has the date and slug (and is published, for non-staff); success exactly when one post matches, not-found exactly when none does, several-returned exactly when two or more do; no other error |
| ContextProcessors.LookupCategory | blog/context_processors.py:119-125 | a found category has the slug; success exactly when one category has it, not-found exactly when none does, several-returned exactly when two or more do; no other error |
| ContextProcessors.LookupSeries | blog/context_processors.py:141-147 | a found series has the slug; success exactly when one series has it, not-found exactly when none does, several-returned exactly when two or more do; no other error |
| ContextProcessors.CategoryDetail | blog/context_processors.py:112-125 | with unique slugs: the category with the slug, or not-found exactly when there is none |
| ContextProcessors.SeriesDetail | blog/context_processors.py:134-147 | with unique slugs: the series with the slug, or not-found exactly when there is none |
| BlogTags.LitOrVal | blog/templatetags/blog_tags.py:15-28 | nothing exactly for a missing or empty argument; a string quoted at both ends by the same quote loses its quotes (a lone quote gives the empty string); a digit string reads as its number; only what is neither is left to resolve |
| BlogTags.LiteralRoundTrip | blog/templatetags/blog_tags.py:22-23 | quoting any string with `"` or `'` and reading it back gives the string |
| BlogTags.NumeralRoundTrip | blog/templatetags/blog_tags.py:20-27 | a decimal numeral reads back as its number; a lone quote reads as the empty literal |
| BlogTags.FindAs | blog/templatetags/blog_tags.py:86 | the lazy `(.*?) as (\w+)` split point: the leftmost ` as ` followed by a word character with no newline before it, or none when every such occurrence follows a newline |
| BlogTags.MatchTagArgs | blog/templatetags/blog_tags.py:86-90 | no match exactly when `FindAs` finds no split point; otherwise the tag is the text before that split point, free of newlines, and the variable name is the longest run of word characters after ` as ` |
| BlogTags.ParseTagPostsTag | blog/templatetags/blog_tags.py:81-91 | whitespace-only contents fail with an index error; a lone word is a syntax error; otherwise it succeeds exactly when the expression matches the rest after the tag name, giving what `MatchTagArgs` gives, and a failed match is a syntax error |
| BlogTags.TagPostsRoundTrip | blog/templatetags/blog_tags.py:72-91 | the usage `name tag as var` parses back into its tag and variable name |
| BlogTags.ParseArchiveTag | blog/templatetags/blog_tags.py:101-117 | index error exactly for fewer than two words; accepted exactly for two to five words with `as` second to last, giving the last word as the variable, the second as the year from four words on and the third as the month at five; every other failure is a syntax error |
| BlogTags.ArchiveTagRoundTrip | blog/templatetags/blog_tags.py:101-117 | `name [year] [month] as var` parses back into its year, month and variable name |
| BlogTags.ArchiveTagWordsBack | blog/templatetags/blog_tags.py:101-117 | any accepted word list of length three or more is the usage of what it parses to |
| BlogTags.ParseCategoriesTag | blog/templatetags/blog_tags.py:132-137 | index error exactly for fewer than two words; accepted exactly for `name as var`, giving `var`; every other failure is a syntax error |
| BlogTags.TagPostsAreQuery | blog/templatetags/blog_tags.py:43-50 | the tag node's posts equal `build_query` by that tag with `require_published = not is_staff` |
| BlogTags.TagPostsFor | blog/templatetags/blog_tags.py:43-50 | the tag node's posts are exactly the stored posts carrying the tag, and only the visible ones for non-staff |
| BlogTags.ArchiveFor | blog/templatetags/blog_tags.py:58-63 | the archive node's archive is well formed, each leaf holds exactly the selected posts of its date, and the leaves count every selected post once |
| BlogTags.TemplateContext.RenderCategories | blog/templatetags/blog_tags.py:33-36 | assigns all categories to the variable and leaves the other variables unchanged |
| BlogTags.TemplateContext.RenderTagPosts | blog/templatetags/blog_tags.py:41-51 | assigns the tag's posts for the user to the variable |
| BlogTags.TemplateContext.RenderArchive | blog/templatetags/blog_tags.py:56-64 | assigns the well-formed archive of the posts the user may see to the variable |
| Models.GetAbsoluteUrl | blog/models.py:86-92 | for a valid date, `reverse` succeeds exactly when the slug fits the route's slug pattern, and the route at blog/urls.py:24 reads back the same date and slug |
| Models.MonthPadded | blog/models.py:90 | months 1 to 12, padded to two digits, fit the route's month pattern |
| Models.YearSegmentWidth | blog/models.py:89 | a year from 1 to 9999 pads to exactly four characters, and from 1000 on it is its plain digits |
| Models.DisplayTitle | blog/models.py:121-125 | the display string is the title exactly for a published post; otherwise it is the title followed by ` (DRAFT)` |
| Models.Titles | blog/models.py:132 | the titles of the categories, position by position |
| Models.PostCategoriesString | blog/models.py:127-132 | no categories give the empty string, one gives its title, and more begin with the first title and `, ` |
| Models.CategoriesStringSeparators | blog/models.py:127-132 | `k >= 1` comma-free titles give exactly `k - 1` commas |
| Models.StampFields | blog/models.py:168 | from 1900 on the `%Y-%m-%d` stamp is ten characters whose fields read back the date, with no `/` |
| Models.UploadPath | blog/models.py:165-169 | the upload path fails, with a value error, exactly for a post dated before 1900 |
| Models.UploadPathParts | blog/models.py:165-169 | from 1900 on, with no `/` in the slug or the file name, the path splits on `/` into `apps`, `blogyall`, `images`, the date stamp, the slug and the file name |
| Models.PingDecision | blog/models.py:97-114 | a ping happens exactly when pinging is on and debugging off, the post is published and dated at or before now, and it is new or was stored unpublished; the stored-post look-up fails only for a known key missing from the table; never a ping under the default settings |
| Models.PingedButNotVisible | blog/models.py:101-102 | a new published post dated exactly now is pinged but is not in the published posts |
| Models.PostTable.Save | blog/models.py:97-115 | the post is stored under its key whether or not it pings; the ping counter grows exactly on a ping; a missing stored post escapes as not-found with nothing changed |
| Text.ZeroPadRoundTrip | blog/models.py:89-91 | a `%0Nd` field reads back as its number |
| Text.DigitsLength | blog/models.py:89 | a number has at most `k` digits exactly when it is below `10^k` |
| Text.SplitJoin | blog/models.py:166-168 | splitting what `join` built on a character none of the parts holds gives the parts back |
| Models.CategoriesStringSplit | blog/models.py:127-132 | with at least one category and comma-free titles, splitting the string on `,` gives back every title in order, each after the first with its one leading space |
| Text.JoinSpaced | blog/models.py:132 | joining on `", "` is joining on `","` with a space put in front of every part but the first |
| Text.JoinCommas | blog/models.py:132 | joining `k >= 1` parts with `", "` adds exactly `k - 1` commas |

## Left out

- `get_tags_in_use` (blog/managers.py:113-125): it depends on `ContentType`, which the file never imports, and on ORM internals.
- The `tagging` plugin: `TaggedItem.objects.get_by_model` is modelled as membership in the post's tag set. How the plugin parses a tag string into several tags is not modelled.
- ORM query execution, `get_object_or_404` and the `DoesNotExist` plumbing. Storage is a sequence; not-found is a failure result.
- `ping_google`: a network call whose exceptions are swallowed. Only the decision to ping is modelled, counted in `PostTable.pings`.
- `datetime.now` is a parameter. Times are compared lexicographically on their fields; time zones are not modelled.
- BlogTags.LitOrVal: the float conversion is modelled only for plain digit strings. Other float spellings (`1.5`, `-3`, `1e3`) and template-variable resolution are classed as `Variable` and not resolved.
- BlogTags.TemplateContext.RenderTagPosts: a tag argument that `lit_or_val` reads as a number reaches django-tagging's `get_by_model` as a float, unresolved, and that library is not part of this model; the model instead filters by the parameter `resolved` for every argument that is not a quoted literal, numerals included, and takes a variable's resolved value as that same parameter.
- BlogTags.TemplateContext.RenderArchive: it takes the year and month already resolved to integers. A literal string year such as `"2008"` is modelled as the number it spells.
- `month_name`: a look-up in Django's `dates.MONTHS` table, which is not part of this model.
- `blog_tag_get_absolute_url`: URL reversal of the tag view, which is not part of this model.
- `get_previous_post` and `get_next_post`: navigation generated by the framework.
- `blog_categories_processor`, `blog_seriess_processor` and `blog_tags_processor` return a whole table. `blog_tag_processor` is a `get_object_or_404` on the tagging plugin's table. These are not modelled beyond `GetOne`.
- `blog_category_processor` and `blog_series_processor` build a post query they never use. Only their look-ups are modelled.
- Comment moderation (blog/models.py:182-195), blog/admin.py, blog/views.py, blog/sitemaps.py, blog/syndication.py and setup.py. The settings defaults of blog/settings.py appear only as `Models.DefaultSettings`.
- The ordering of `Category`, `Series` and `PostImage` query sets: they are taken in the order given.
- Primary keys: `PostTable.Save` hands out `nextPk` for a post without a key. The database's own key allocation is not modelled.
- The URL prefix under which the blog's routes are mounted. Paths are relative to the blog's own `urls.py`.
- `\w` is taken as ASCII letters, digits and `_`. That is what Python 2's `re.match` in the template tags uses, since it is called without the `UNICODE` flag.
- Models.GetAbsoluteUrl: Django's URL resolver compiles the `post_detail` route with `re.UNICODE`, so a slug with non-ASCII letters reverses there but gives `None` here. The stated equivalence with the slug pattern holds only for ASCII slugs.
- ContextProcessors.BlogPostsProcessor: the year and month are taken as integers. The routes in blog/urls.py pass them to the views as strings, and the string `'0000'` of `/0000/` is truthy. The source then filters on year 0, returns no posts and sets the `year` key, whereas the model reads `0` as not given and lists every post.
- The archive's lists are built bottom-up as values rather than by `extend` on lists already held in tuples. The result is the same nested structure.
- Records.Filter: `Filter`'s own contract gives membership and length only. That it takes each element at most as often as the input holds it is a separate lemma.
