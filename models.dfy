/**
 * The helpers on `Post` and `PostImage` (blog/models.py): the URL segments of
 * a post and the route that reads them back, the display title, the
 * categories string, the image upload path, and `Post.save` with its
 * decision to ping the search engine.
 */
module Models {
  import opened Wrappers
  import opened Records
  import opened Text
  import opened Managers

  // ---------------------------------------------------------------------------
  // `get_absolute_url` and the `post_detail` route

  /** The arguments `get_absolute_url` hands to `reverse`: `%04d`, `%02d`, `%02d`, slug. */
  function PostUrlArgs(p: Post): seq<string>
    requires ValidDateTime(p.publishDate)
  {
    [ZeroPad(p.publishDate.year, 4), ZeroPad(p.publishDate.month, 2), ZeroPad(p.publishDate.day, 2), p.slug]
  }

  /** `[-\w]+` */
  predicate SlugSegment(s: string)
  {
    |s| >= 1 && forall i :: 0 <= i < |s| ==> s[i] == '-' || IsWordChar(s[i])
  }

  /** `\d{4}` */
  predicate YearSegment(s: string)
  {
    |s| == 4 && AllDigits(s)
  }

  /** `0[1-9]|1[0-2]` */
  predicate MonthSegment(s: string)
  {
    |s| == 2 && ((s[0] == '0' && '1' <= s[1] <= '9') || (s[0] == '1' && '0' <= s[1] <= '2'))
  }

  /** `\d{2}` */
  predicate DaySegment(s: string)
  {
    |s| == 2 && AllDigits(s)
  }

  /** The `post_detail` pattern, segment by segment. */
  predicate PostDetailArgs(args: seq<string>)
  {
    && |args| == 4
    && YearSegment(args[0]) && MonthSegment(args[1]) && DaySegment(args[2]) && SlugSegment(args[3])
  }

  function PostDetailPath(args: seq<string>): string
    requires |args| == 4
  {
    args[0] + "/" + args[1] + "/" + args[2] + "/" + args[3] + "/"
  }

  /**
   * `get_absolute_url` through `reverse`, relative to where the blog's URLs
   * are mounted: `None` is `NoReverseMatch`, raised when the arguments do not
   * fit the pattern. For a valid date that is exactly when the slug does not
   * fit `[-\w]+`; otherwise the route reads back the post's date and slug.
   */
  function GetAbsoluteUrl(p: Post): (r: Option<string>)
    requires ValidDateTime(p.publishDate)
    ensures r.Some? <==> SlugSegment(p.slug)
    ensures r.Some? ==> ResolvePostDetail(r.value) == Some((p.publishDate.year, p.publishDate.month, p.publishDate.day, p.slug))
  {
    var t := p.publishDate;
    ZeroPadLength(t.year, 4);
    ZeroPadLength(t.day, 2);
    MonthPadded(t.month);
    ZeroPadRoundTrip(t.year, 4);
    ZeroPadRoundTrip(t.month, 2);
    ZeroPadRoundTrip(t.day, 2);
    PathSlices(ZeroPad(t.year, 4), ZeroPad(t.month, 2), ZeroPad(t.day, 2), p.slug);
    var args := PostUrlArgs(p);
    if PostDetailArgs(args) then Some(PostDetailPath(args)) else None
  }

  /** The `post_detail` route matched against a path: year, month, day and slug. */
  function ResolvePostDetail(path: string): Option<(int, int, int, string)>
  {
    if |path| >= 13 && path[4] == '/' && path[7] == '/' && path[10] == '/' && path[|path| - 1] == '/'
       && YearSegment(path[..4]) && MonthSegment(path[5..7]) && DaySegment(path[8..10])
       && SlugSegment(path[11..|path| - 1])
    then Some((ParseDecimal(path[..4]), ParseDecimal(path[5..7]), ParseDecimal(path[8..10]), path[11..|path| - 1]))
    else None
  }

  lemma MonthPadded(m: nat)
    requires 1 <= m <= 12
    ensures MonthSegment(ZeroPad(m, 2))
  {
    if m >= 10 {
      assert Digits(m) == Digits(m / 10) + [DigitChar(m % 10)];
      assert Digits(m / 10) == [DigitChar(1)];
    }
  }

  lemma PathSlices(y: string, m: string, d: string, slug: string)
    requires |y| == 4 && |m| == 2 && |d| == 2
    ensures var path := PostDetailPath([y, m, d, slug]);
      && |path| == 12 + |slug| && path[4] == '/' && path[7] == '/' && path[10] == '/' && path[|path| - 1] == '/'
      && path[..4] == y && path[5..7] == m && path[8..10] == d && path[11..|path| - 1] == slug
  {
  }

  /** Years 1000 to 9999 print as exactly their four digits; smaller years are zero-padded to four. */
  lemma YearSegmentWidth(y: nat)
    requires 1 <= y <= 9999
    ensures |ZeroPad(y, 4)| == 4
    ensures y >= 1000 ==> ZeroPad(y, 4) == Digits(y)
  {
    ZeroPadLength(y, 4);
    DigitsLength(y, 4);
    if y >= 1000 {
      DigitsLength(y, 3);
    }
  }

  // ---------------------------------------------------------------------------
  // `__unicode__` and `post_categories_string`

  /**
   * `Post.__unicode__`: the bare title exactly for published posts; a
   * draft's carries the marker after it.
   */
  function DisplayTitle(p: Post): (r: string)
    ensures r == p.title <==> p.isPublished
    ensures !p.isPublished ==> |r| == |p.title| + 8 && r[..|p.title|] == p.title && r[|p.title|..] == " (DRAFT)"
  {
    if p.isPublished then p.title else p.title + " (DRAFT)"
  }

  /** `self.categories.all()`: the categories, in table order, whose slug the post holds. */
  function PostCategories(p: Post, categories: seq<Category>): seq<Category>
  {
    Filter(categories, (c: Category) => c.slug in p.categories)
  }

  function Titles(cs: seq<Category>): (r: seq<string>)
    ensures |r| == |cs| && forall i :: 0 <= i < |cs| ==> r[i] == cs[i].title
  {
    if cs == [] then [] else [cs[0].title] + Titles(cs[1..])
  }

  /** `post_categories_string`: the titles of the post's categories, separated by `, `. */
  function PostCategoriesString(p: Post, categories: seq<Category>): (r: string)
    ensures PostCategories(p, categories) == [] ==> r == ""
    ensures |PostCategories(p, categories)| == 1 ==> r == PostCategories(p, categories)[0].title
    ensures |PostCategories(p, categories)| >= 2 ==>
      var first := PostCategories(p, categories)[0].title;
      |r| >= |first| + 2 && r[..|first|] == first && r[|first|..|first| + 2] == ", "
  {
    Join(", ", Titles(PostCategories(p, categories)))
  }

  lemma {:induction false} NoCommas(parts: seq<string>)
    requires forall i :: 0 <= i < |parts| ==> ',' !in parts[i]
    ensures SumCounts(parts, ',') == 0
  {
    if parts != [] {
      CommaFree(parts[0]);
      NoCommas(parts[1..]);
    }
  }

  lemma {:induction false} CommaFree(s: string)
    requires ',' !in s
    ensures CountChar(s, ',') == 0
  {
    if s != [] {
      assert s[0] != ',';
      assert forall i :: 0 <= i < |s[1..]| ==> s[1..][i] == s[i + 1];
      CommaFree(s[1..]);
    }
  }

  /** With `k >= 1` categories whose titles hold no comma, the string has exactly `k - 1`. */
  lemma CategoriesStringSeparators(p: Post, categories: seq<Category>)
    ensures (forall c :: c in categories ==> ',' !in c.title) && PostCategories(p, categories) != [] ==>
      CountChar(PostCategoriesString(p, categories), ',') == |PostCategories(p, categories)| - 1
  {
    var cs := PostCategories(p, categories);
    JoinCommas(Titles(cs));
    if forall c :: c in categories ==> ',' !in c.title {
      assert forall i :: 0 <= i < |cs| ==> cs[i] in cs;
      NoCommas(Titles(cs));
    }
  }

  /**
   * With at least one category and no comma in any title, splitting the string
   * on `,` gives back the titles in order, each after the first with the one
   * space of its separator in front.
   */
  lemma CategoriesStringSplit(p: Post, categories: seq<Category>)
    requires forall c :: c in categories ==> ',' !in c.title
    requires PostCategories(p, categories) != []
    ensures var t := Titles(PostCategories(p, categories));
      SplitOn(PostCategoriesString(p, categories), ',') == [t[0]] + Spaced(t[1..])
  {
    var cs := PostCategories(p, categories);
    var t := Titles(cs);
    var parts := [t[0]] + Spaced(t[1..]);
    JoinSpaced(t);
    forall i | 0 <= i < |parts|
      ensures ',' !in parts[i]
    {
      assert cs[i] in cs;
      if i > 0 {
        assert parts[i] == " " + t[i];
      }
    }
    SplitJoin(parts, ',');
  }

  // ---------------------------------------------------------------------------
  // The `upload_to` path of `PostImage.image`

  /** `strftime('%Y-%m-%d')`; Python 2 refuses years before 1900. */
  function DateStamp(t: DateTime): Result<string, Error>
    requires ValidDateTime(t)
  {
    if t.year < 1900 then Failure(ValueError)
    else Success(ZeroPad(t.year, 4) + "-" + ZeroPad(t.month, 2) + "-" + ZeroPad(t.day, 2))
  }

  /** `'/'.join(['apps', 'blogyall', 'images', <date>, <slug>, fn])`. */
  function UploadPath(img: PostImage, filename: string): (r: Result<string, Error>)
    requires ValidDateTime(img.post.publishDate)
    ensures r.Failure? <==> img.post.publishDate.year < 1900
    ensures r.Failure? ==> r.error == ValueError
  {
    var stamp := DateStamp(img.post.publishDate);
    if stamp.Failure? then Failure(stamp.error)
    else Success(Join("/", ["apps", "blogyall", "images", stamp.value, img.post.slug, filename]))
  }

  /** The three fields of a stamp `YYYY-MM-DD`, each read back by position. */
  predicate StampReadsBack(stamp: string, t: DateTime)
  {
    && |stamp| == 10 && stamp[4] == '-' && stamp[7] == '-'
    && AllDigits(stamp[..4]) && AllDigits(stamp[5..7]) && AllDigits(stamp[8..])
    && ParseDecimal(stamp[..4]) == t.year
    && ParseDecimal(stamp[5..7]) == t.month
    && ParseDecimal(stamp[8..]) == t.day
  }

  lemma StampSlices(y: string, m: string, d: string)
    requires |y| == 4 && |m| == 2 && |d| == 2 && AllDigits(y) && AllDigits(m) && AllDigits(d)
    ensures var stamp := y + "-" + m + "-" + d;
      && |stamp| == 10 && stamp[4] == '-' && stamp[7] == '-'
      && stamp[..4] == y && stamp[5..7] == m && stamp[8..] == d
      && '/' !in stamp
  {
    var stamp := y + "-" + m + "-" + d;
    assert forall i :: 0 <= i < |stamp| ==> IsDigit(stamp[i]) || stamp[i] == '-';
  }

  lemma StampFields(t: DateTime)
    requires ValidDateTime(t) && t.year >= 1900
    ensures DateStamp(t).Success? && StampReadsBack(DateStamp(t).value, t) && '/' !in DateStamp(t).value
  {
    ZeroPadLength(t.year, 4);
    ZeroPadLength(t.month, 2);
    ZeroPadLength(t.day, 2);
    ZeroPadRoundTrip(t.year, 4);
    ZeroPadRoundTrip(t.month, 2);
    ZeroPadRoundTrip(t.day, 2);
    StampSlices(ZeroPad(t.year, 4), ZeroPad(t.month, 2), ZeroPad(t.day, 2));
  }

  /**
   * From 1900 on the path splits on `/` into the fixed prefix, a stamp that
   * reads back the post's date, its slug and the file name.
   */
  lemma UploadPathParts(img: PostImage, filename: string)
    requires ValidDateTime(img.post.publishDate)
    ensures img.post.publishDate.year >= 1900 && '/' !in img.post.slug && '/' !in filename ==>
      && UploadPath(img, filename).Success?
      && var parts := SplitOn(UploadPath(img, filename).value, '/');
      && |parts| == 6 && parts[..3] == ["apps", "blogyall", "images"]
      && StampReadsBack(parts[3], img.post.publishDate)
      && parts[4] == img.post.slug && parts[5] == filename
  {
    var t := img.post.publishDate;
    if t.year >= 1900 && '/' !in img.post.slug && '/' !in filename {
      StampFields(t);
      var stamp := DateStamp(t).value;
      var parts := ["apps", "blogyall", "images", stamp, img.post.slug, filename];
      UploadSplit(stamp, img.post.slug, filename);
      assert UploadPath(img, filename) == Success(Join("/", parts));
      assert SplitOn(UploadPath(img, filename).value, '/') == parts;
      assert parts[..3] == ["apps", "blogyall", "images"] && parts[3] == stamp;
    }
  }

  /** The joined path splits back into its six parts when none of them holds a `/`. */
  lemma UploadSplit(stamp: string, slug: string, filename: string)
    requires '/' !in stamp && '/' !in slug && '/' !in filename
    ensures var parts := ["apps", "blogyall", "images", stamp, slug, filename];
      SplitOn(Join("/", parts), '/') == parts
  {
    var parts := ["apps", "blogyall", "images", stamp, slug, filename];
    assert '/' !in "apps" && '/' !in "blogyall" && '/' !in "images";
    assert forall i :: 0 <= i < 6 ==> '/' !in parts[i];
    SplitJoin(parts, '/');
  }

  // ---------------------------------------------------------------------------
  // `Post.save` and the search-engine ping

  /** The two settings `save` reads; blog/settings.py defaults them to `True` and `False`. */
  datatype Settings = Settings(debug: bool, pingGoogle: bool)

  const DefaultSettings := Settings(true, false)

  predicate PingEnabled(s: Settings)
  {
    s.pingGoogle && !s.debug
  }

  /** `not self.pk`: no key yet, or the falsy key 0. */
  predicate IsNew(pk: Option<nat>)
  {
    pk.None? || pk.value == 0
  }

  /** What the first half of `save` does: nothing, a ping, or a failed look-up of the stored post. */
  datatype PingStep = NoPing | Ping | LookupFails

  /**
   * A ping happens exactly when pinging is enabled, the post is published and
   * dated at or before now, and it is new or was stored unpublished; the
   * stored post is looked up only for a published, due post with a key.
   */
  function PingDecision(s: Settings, p: Post, now: DateTime, pk: Option<nat>, rows: map<nat, Post>): (r: PingStep)
    ensures r == Ping <==>
      && PingEnabled(s) && p.isPublished && AtOrBefore(p.publishDate, now)
      && (IsNew(pk) || (pk.value in rows && !rows[pk.value].isPublished))
    ensures r == LookupFails <==>
      PingEnabled(s) && p.isPublished && AtOrBefore(p.publishDate, now) && !IsNew(pk) && pk.value !in rows
    ensures s == DefaultSettings ==> r == NoPing
  {
    if PingEnabled(s) && p.isPublished && AtOrBefore(p.publishDate, now) then
      if IsNew(pk) then Ping
      else if pk.value !in rows then LookupFails
      else if !rows[pk.value].isPublished then Ping
      else NoPing
    else NoPing
  }

  /**
   * `save` compares with `<=` where the public query compares with `<`: a
   * post dated exactly now is pinged yet not listed as published.
   */
  lemma PingedButNotVisible(s: Settings, p: Post, pk: Option<nat>, rows: map<nat, Post>)
    requires PingEnabled(s) && p.isPublished && IsNew(pk)
    ensures PingDecision(s, p, p.publishDate, pk, rows) == Ping
    ensures forall db :: p !in GetPublishedPosts(db, p.publishDate)
  {
  }

  /** The stored posts by primary key, and the pings `save` has attempted. */
  class PostTable {
    var rows: map<nat, Post>
    var nextPk: nat
    var pings: nat

    /** Every stored key is below the next key to hand out. */
    ghost predicate Valid()
      reads this
    {
      nextPk >= 1 && forall k :: k in rows ==> k < nextPk
    }

    constructor()
      ensures Valid() && rows == map[] && pings == 0
    {
      rows := map[];
      nextPk := 1;
      pings := 0;
    }

    /**
     * `Post.save`: the ping step, then `super().save()`. The post is stored
     * unless the stored version the ping step looks up is missing, in which
     * case `DoesNotExist` escapes and nothing changes.
     */
    method Save(pk: Option<nat>, p: Post, s: Settings, now: DateTime) returns (r: Result<nat, Error>)
      requires Valid()
      modifies this
      ensures Valid()
      ensures PingDecision(s, p, now, pk, old(rows)) == LookupFails ==>
        r == Failure(NotFound) && rows == old(rows) && nextPk == old(nextPk) && pings == old(pings)
      ensures PingDecision(s, p, now, pk, old(rows)) != LookupFails ==>
        && r == Success(if pk.None? then old(nextPk) else pk.value)
        && rows == old(rows)[r.value := p]
        && pings == old(pings) + (if PingDecision(s, p, now, pk, old(rows)) == Ping then 1 else 0)
    {
      if s.pingGoogle && !s.debug {
        if p.isPublished && AtOrBefore(p.publishDate, now) {
          if pk.None? || pk.value == 0 {
            pings := pings + 1;
          } else {
            if pk.value !in rows {
              return Failure(NotFound);
            }
            var oldPost := rows[pk.value];
            if !oldPost.isPublished {
              pings := pings + 1;
            }
          }
        }
      }
      var key: nat;
      if pk.None? {
        key := nextPk;
      } else {
        key := pk.value;
      }
      rows := rows[key := p];
      if key >= nextPk {
        nextPk := key + 1;
      }
      r := Success(key);
    }
  }
}
