/**
 * `PostManager.get_post_archive` (blog/managers.py): posts bucketed by year,
 * month and day, each level listed in descending key order.
 *
 * `Archive` is the specification: the keys at each level sorted descending,
 * the posts of a bucket selected from the input in input order. The method
 * `GetPostArchive` does what the source does — fills nested maps in one pass,
 * then walks the sorted keys of each level — and is proved to produce
 * `Archive` of the ordered query result.
 */
module PostArchive {
  import opened Wrappers
  import opened Records
  import opened Managers

  datatype DayBucket = DayBucket(day: int, posts: seq<Post>)
  datatype MonthBucket = MonthBucket(month: int, days: seq<DayBucket>)
  datatype YearBucket = YearBucket(year: int, months: seq<MonthBucket>)

  /** The three date components a post is bucketed by. */
  datatype Level = Year | Month | Day

  function Key(p: Post, l: Level): int
  {
    match l
    case Year => p.publishDate.year
    case Month => p.publishDate.month
    case Day => p.publishDate.day
  }

  /** The posts whose `l` component is `k`, in input order. */
  function Select(ps: seq<Post>, l: Level, k: int): seq<Post>
  {
    Filter(ps, (p: Post) => Key(p, l) == k)
  }

  predicate StrictlyDescending(ks: seq<int>)
  {
    forall i, j :: 0 <= i < j < |ks| ==> ks[i] > ks[j]
  }

  /** `k` placed into the strictly descending `ks`, unless it is there already. */
  function InsertDesc(k: int, ks: seq<int>): (r: seq<int>)
    requires StrictlyDescending(ks)
    ensures StrictlyDescending(r)
    ensures forall x :: x in r <==> x == k || x in ks
  {
    if ks == [] then [k]
    else if k > ks[0] then [k] + ks
    else if k == ks[0] then ks
    else
      var rest := InsertDesc(k, ks[1..]);
      assert forall i :: 0 <= i < |rest| ==> rest[i] in rest;
      [ks[0]] + rest
  }

  /** The distinct `l` components of the posts in `ps`, largest first. */
  function SortedKeys(ps: seq<Post>, l: Level): (r: seq<int>)
    ensures StrictlyDescending(r)
    ensures forall p :: p in ps ==> Key(p, l) in r
  {
    if ps == [] then []
    else
      var init := ps[..|ps| - 1];
      assert ps == init + [ps[|ps| - 1]];
      InsertDesc(Key(ps[|ps| - 1], l), SortedKeys(init, l))
  }

  /** A key is listed exactly when some post has it. */
  lemma {:induction false} KeysOccupied(ps: seq<Post>, l: Level, k: int)
    ensures k in SortedKeys(ps, l) <==> Select(ps, l, k) != []
  {
    if Select(ps, l, k) != [] {
      assert Select(ps, l, k)[0] in Select(ps, l, k);
    }
    if k in SortedKeys(ps, l) {
      var init, last := ps[..|ps| - 1], ps[|ps| - 1];
      assert ps == init + [last];
      if k == Key(last, l) {
        assert last in Select(ps, l, k);
      } else {
        KeysOccupied(init, l, k);
        var q := Select(init, l, k)[0];
        assert q in Select(init, l, k);
        assert q in ps;
        assert q in Select(ps, l, k);
      }
    }
  }

  /** Two strictly descending sequences with the same members are the same sequence. */
  lemma {:induction false} DescendingUnique(a: seq<int>, b: seq<int>)
    requires StrictlyDescending(a) && StrictlyDescending(b)
    requires forall x :: x in a <==> x in b
    ensures a == b
  {
    if a != [] {
      assert a[0] in a;
    }
    if b != [] {
      assert b[0] in b;
    }
    if a != [] && b != [] {
      DescendingHead(a, b);
      DescendingHead(b, a);
      DescendingTail(a, b);
      DescendingTail(b, a);
      DescendingUnique(a[1..], b[1..]);
      assert a == [a[0]] + a[1..] && b == [b[0]] + b[1..];
    }
  }

  /** The head of a strictly descending sequence is at least every member of one with the same members. */
  lemma DescendingHead(a: seq<int>, b: seq<int>)
    requires StrictlyDescending(a) && a != [] && b != []
    requires forall x :: x in a <==> x in b
    ensures a[0] >= b[0]
  {
    assert b[0] in b;
    var j :| 0 <= j < |a| && a[j] == b[0];
  }

  /** With equal heads, the tail of one holds only members of the other's tail. */
  lemma DescendingTail(a: seq<int>, b: seq<int>)
    requires StrictlyDescending(a) && StrictlyDescending(b) && a != [] && b != [] && a[0] == b[0]
    requires forall x :: x in a <==> x in b
    ensures forall x :: x in a[1..] ==> x in b[1..]
  {
    forall x | x in a[1..]
      ensures x in b[1..]
    {
      var k :| 0 <= k < |a[1..]| && a[1..][k] == x;
      assert a[k + 1] == x && x < a[0];
      assert x in b;
      var k' :| 0 <= k' < |b| && b[k'] == x;
      assert k' != 0 && b[1..][k' - 1] == x;
    }
  }

  /** `sorted(d.keys(), reverse=True)` for a dictionary with integer keys. */
  method SortedDesc(s: set<int>) returns (r: seq<int>)
    ensures StrictlyDescending(r)
    ensures forall x :: x in r <==> x in s
  {
    r := [];
    var rest := s;
    while rest != {}
      invariant rest <= s
      invariant StrictlyDescending(r)
      invariant forall x :: x in r <==> x in s && x !in rest
      decreases |rest|
    {
      if forall y :: y !in rest {
        assert false;
      }
      var x :| x in rest;
      r := InsertDesc(x, r);
      rest := rest - {x};
    }
  }

  /** The buckets for the keys `ks`, a day's posts selected from `ps`. */
  function DaysFrom(ps: seq<Post>, ks: seq<int>): seq<DayBucket>
  {
    seq(|ks|, i requires 0 <= i < |ks| => DayBucket(ks[i], Select(ps, Day, ks[i])))
  }

  function DaysOf(ps: seq<Post>): seq<DayBucket>
  {
    DaysFrom(ps, SortedKeys(ps, Day))
  }

  function MonthsFrom(ps: seq<Post>, ks: seq<int>): seq<MonthBucket>
  {
    seq(|ks|, i requires 0 <= i < |ks| => MonthBucket(ks[i], DaysOf(Select(ps, Month, ks[i]))))
  }

  function MonthsOf(ps: seq<Post>): seq<MonthBucket>
  {
    MonthsFrom(ps, SortedKeys(ps, Month))
  }

  function YearsFrom(ps: seq<Post>, ks: seq<int>): seq<YearBucket>
  {
    seq(|ks|, i requires 0 <= i < |ks| => YearBucket(ks[i], MonthsOf(Select(ps, Year, ks[i]))))
  }

  /**
   * The archive of `ps`: years, months and days descending, posts in input
   * order. Every level's keys are strictly descending, no bucket is empty,
   * and only no posts give no years.
   */
  function Archive(ps: seq<Post>): (r: seq<YearBucket>)
    ensures ArchiveWellFormed(r)
    ensures r == [] <==> ps == []
  {
    YearsShape(ps);
    YearsFrom(ps, SortedKeys(ps, Year))
  }

  // ---------------------------------------------------------------------------
  // Shape: strictly descending keys, no empty bucket

  predicate DaysWellFormed(ds: seq<DayBucket>)
  {
    && (forall i, j :: 0 <= i < j < |ds| ==> ds[i].day > ds[j].day)
    && (forall i :: 0 <= i < |ds| ==> ds[i].posts != [])
  }

  predicate MonthsWellFormed(ms: seq<MonthBucket>)
  {
    && (forall i, j :: 0 <= i < j < |ms| ==> ms[i].month > ms[j].month)
    && (forall i :: 0 <= i < |ms| ==> ms[i].days != [] && DaysWellFormed(ms[i].days))
  }

  predicate ArchiveWellFormed(a: seq<YearBucket>)
  {
    && (forall i, j :: 0 <= i < j < |a| ==> a[i].year > a[j].year)
    && (forall i :: 0 <= i < |a| ==> a[i].months != [] && MonthsWellFormed(a[i].months))
  }

  lemma DaysShape(ps: seq<Post>)
    ensures DaysWellFormed(DaysOf(ps))
    ensures ps != [] ==> DaysOf(ps) != []
  {
    var ks := SortedKeys(ps, Day);
    forall i | 0 <= i < |ks| ensures Select(ps, Day, ks[i]) != [] {
      KeysOccupied(ps, Day, ks[i]);
    }
    if ps != [] {
      assert Key(ps[0], Day) in ks;
    }
  }

  lemma MonthsShape(ps: seq<Post>)
    ensures MonthsWellFormed(MonthsOf(ps))
    ensures ps != [] ==> MonthsOf(ps) != []
  {
    var ks := SortedKeys(ps, Month);
    forall i | 0 <= i < |ks|
      ensures DaysOf(Select(ps, Month, ks[i])) != [] && DaysWellFormed(DaysOf(Select(ps, Month, ks[i])))
    {
      KeysOccupied(ps, Month, ks[i]);
      DaysShape(Select(ps, Month, ks[i]));
    }
    if ps != [] {
      assert Key(ps[0], Month) in ks;
    }
  }

  lemma YearsShape(ps: seq<Post>)
    ensures ArchiveWellFormed(YearsFrom(ps, SortedKeys(ps, Year)))
    ensures YearsFrom(ps, SortedKeys(ps, Year)) == [] <==> ps == []
  {
    var ks := SortedKeys(ps, Year);
    var a := YearsFrom(ps, ks);
    assert |a| == |ks|;
    forall i | 0 <= i < |a|
      ensures a[i].months != [] && MonthsWellFormed(a[i].months)
    {
      assert a[i].months == MonthsOf(Select(ps, Year, ks[i]));
      KeysOccupied(ps, Year, ks[i]);
      MonthsShape(Select(ps, Year, ks[i]));
    }
    forall i, j | 0 <= i < j < |a|
      ensures a[i].year > a[j].year
    {
      assert a[i].year == ks[i] && a[j].year == ks[j];
    }
    if ps != [] {
      assert Key(ps[0], Year) in ks;
    } else {
      assert ks == [];
    }
  }

  // ---------------------------------------------------------------------------
  // Contents: each leaf holds exactly the posts of its date, in input order

  predicate OnDate(p: Post, y: int, m: int, d: int)
  {
    p.publishDate.year == y && p.publishDate.month == m && p.publishDate.day == d
  }

  /** The posts of `ps` published on day `y`-`m`-`d`, in input order. */
  function PostsOn(ps: seq<Post>, y: int, m: int, d: int): seq<Post>
  {
    Filter(ps, (p: Post) => OnDate(p, y, m, d))
  }

  predicate LeavesExact(a: seq<YearBucket>, ps: seq<Post>)
  {
    forall i, j, k :: 0 <= i < |a| && 0 <= j < |a[i].months| && 0 <= k < |a[i].months[j].days| ==>
      a[i].months[j].days[k].posts == PostsOn(ps, a[i].year, a[i].months[j].month, a[i].months[j].days[k].day)
  }

  lemma NestedSelect(ps: seq<Post>, y: int, m: int, d: int)
    ensures Select(Select(Select(ps, Year, y), Month, m), Day, d) == PostsOn(ps, y, m, d)
  {
    var inYear := (p: Post) => Key(p, Year) == y;
    var inMonth := (p: Post) => inYear(p) && Key(p, Month) == m;
    FilterFuse(ps, inYear, (p: Post) => Key(p, Month) == m, inMonth);
    FilterFuse(ps, inMonth, (p: Post) => Key(p, Day) == d, (p: Post) => OnDate(p, y, m, d));
  }

  /** Each leaf is the input's posts of that day, in the order they were supplied. */
  lemma ArchiveLeaves(ps: seq<Post>)
    ensures LeavesExact(Archive(ps), ps)
  {
    var a := Archive(ps);
    forall i, j, k | 0 <= i < |a| && 0 <= j < |a[i].months| && 0 <= k < |a[i].months[j].days|
      ensures a[i].months[j].days[k].posts == PostsOn(ps, a[i].year, a[i].months[j].month, a[i].months[j].days[k].day)
    {
      NestedSelect(ps, a[i].year, a[i].months[j].month, a[i].months[j].days[k].day);
    }
  }

  /** The leaf of post `p`'s date exists, and `p` is in it. */
  lemma LeafOf(ps: seq<Post>, p: Post) returns (i: nat, j: nat, k: nat)
    requires p in ps
    ensures i < |Archive(ps)| && j < |Archive(ps)[i].months| && k < |Archive(ps)[i].months[j].days|
    ensures p in Archive(ps)[i].months[j].days[k].posts
  {
    var y, m, d := p.publishDate.year, p.publishDate.month, p.publishDate.day;
    var ys := SortedKeys(ps, Year);
    i :| i < |ys| && ys[i] == y;
    var inYear := Select(ps, Year, y);
    var ms := SortedKeys(inYear, Month);
    assert p in inYear;
    j :| j < |ms| && ms[j] == m;
    var inMonth := Select(inYear, Month, m);
    var ds := SortedKeys(inMonth, Day);
    assert p in inMonth;
    k :| k < |ds| && ds[k] == d;
    assert Archive(ps)[i].months[j].days[k].posts == Select(inMonth, Day, d);
  }

  /** Every input post lies in some leaf. */
  lemma ArchiveCovers(ps: seq<Post>)
    ensures forall p :: p in ps ==> exists i, j, k ::
      && 0 <= i < |Archive(ps)| && 0 <= j < |Archive(ps)[i].months|
      && 0 <= k < |Archive(ps)[i].months[j].days|
      && p in Archive(ps)[i].months[j].days[k].posts
  {
    forall p | p in ps
      ensures exists i, j, k ::
        && 0 <= i < |Archive(ps)| && 0 <= j < |Archive(ps)[i].months|
        && 0 <= k < |Archive(ps)[i].months[j].days|
        && p in Archive(ps)[i].months[j].days[k].posts
    {
      var i, j, k := LeafOf(ps, p);
    }
  }

  /** No post lies in two leaves. */
  lemma ArchiveLeafUnique(ps: seq<Post>)
    ensures forall p, i, j, k, i', j', k' ::
      && 0 <= i < |Archive(ps)| && 0 <= j < |Archive(ps)[i].months| && 0 <= k < |Archive(ps)[i].months[j].days|
      && 0 <= i' < |Archive(ps)| && 0 <= j' < |Archive(ps)[i'].months| && 0 <= k' < |Archive(ps)[i'].months[j'].days|
      && p in Archive(ps)[i].months[j].days[k].posts && p in Archive(ps)[i'].months[j'].days[k'].posts
      ==> i == i' && j == j' && k == k'
  {
    ArchiveLeaves(ps);
  }

  // ---------------------------------------------------------------------------
  // Counting: the leaf sizes add up to the input length

  function DayTotal(ds: seq<DayBucket>): nat
  {
    if ds == [] then 0 else |ds[0].posts| + DayTotal(ds[1..])
  }

  function MonthTotal(ms: seq<MonthBucket>): nat
  {
    if ms == [] then 0 else DayTotal(ms[0].days) + MonthTotal(ms[1..])
  }

  /** The number of posts across all leaves of an archive. */
  function ArchiveTotal(a: seq<YearBucket>): nat
  {
    if a == [] then 0 else MonthTotal(a[0].months) + ArchiveTotal(a[1..])
  }

  function SumSelect(ps: seq<Post>, l: Level, ks: seq<int>): nat
  {
    if ks == [] then 0 else |Select(ps, l, ks[0])| + SumSelect(ps, l, ks[1..])
  }

  function Occurrences(ks: seq<int>, k: int): nat
  {
    if ks == [] then 0 else (if ks[0] == k then 1 else 0) + Occurrences(ks[1..], k)
  }

  lemma {:induction false} OccurrencesDistinct(ks: seq<int>, k: int)
    requires StrictlyDescending(ks)
    ensures Occurrences(ks, k) == if k in ks then 1 else 0
  {
    if ks != [] {
      OccurrencesDistinct(ks[1..], k);
      if ks[0] == k {
        assert k !in ks[1..];
      }
    }
  }

  lemma SelectSnoc(ps: seq<Post>, p: Post, l: Level, k: int)
    ensures Select(ps + [p], l, k) == Select(ps, l, k) + (if Key(p, l) == k then [p] else [])
  {
    assert (ps + [p])[..|ps|] == ps;
  }

  lemma {:induction false} SumSelectSnoc(ps: seq<Post>, p: Post, l: Level, ks: seq<int>)
    ensures SumSelect(ps + [p], l, ks) == SumSelect(ps, l, ks) + Occurrences(ks, Key(p, l))
  {
    if ks != [] {
      SelectSnoc(ps, p, l, ks[0]);
      SumSelectSnoc(ps, p, l, ks[1..]);
    }
  }

  lemma {:induction false} SumSelectEmpty(l: Level, ks: seq<int>)
    ensures SumSelect([], l, ks) == 0
  {
    if ks != [] {
      SumSelectEmpty(l, ks[1..]);
    }
  }

  /** Buckets over distinct keys that cover every post partition the posts. */
  lemma {:induction false} SumSelectIsLength(ps: seq<Post>, l: Level, ks: seq<int>)
    requires StrictlyDescending(ks)
    requires forall p :: p in ps ==> Key(p, l) in ks
    ensures SumSelect(ps, l, ks) == |ps|
  {
    if ps == [] {
      SumSelectEmpty(l, ks);
    } else {
      var init, last := ps[..|ps| - 1], ps[|ps| - 1];
      assert ps == init + [last];
      SumSelectIsLength(init, l, ks);
      SumSelectSnoc(init, last, l, ks);
      OccurrencesDistinct(ks, Key(last, l));
    }
  }

  lemma {:induction false} DayTotalIsSum(ps: seq<Post>, ks: seq<int>)
    ensures DayTotal(DaysFrom(ps, ks)) == SumSelect(ps, Day, ks)
  {
    if ks != [] {
      assert DaysFrom(ps, ks)[1..] == DaysFrom(ps, ks[1..]);
      DayTotalIsSum(ps, ks[1..]);
    }
  }

  lemma DaysCount(ps: seq<Post>)
    ensures DayTotal(DaysOf(ps)) == |ps|
  {
    DayTotalIsSum(ps, SortedKeys(ps, Day));
    SumSelectIsLength(ps, Day, SortedKeys(ps, Day));
  }

  lemma {:induction false} MonthTotalIsSum(ps: seq<Post>, ks: seq<int>)
    ensures MonthTotal(MonthsFrom(ps, ks)) == SumSelect(ps, Month, ks)
  {
    if ks != [] {
      assert MonthsFrom(ps, ks)[1..] == MonthsFrom(ps, ks[1..]);
      DaysCount(Select(ps, Month, ks[0]));
      MonthTotalIsSum(ps, ks[1..]);
    }
  }

  lemma MonthsCount(ps: seq<Post>)
    ensures MonthTotal(MonthsOf(ps)) == |ps|
  {
    MonthTotalIsSum(ps, SortedKeys(ps, Month));
    SumSelectIsLength(ps, Month, SortedKeys(ps, Month));
  }

  lemma {:induction false} ArchiveTotalIsSum(ps: seq<Post>, ks: seq<int>)
    ensures ArchiveTotal(YearsFrom(ps, ks)) == SumSelect(ps, Year, ks)
  {
    if ks != [] {
      assert YearsFrom(ps, ks)[1..] == YearsFrom(ps, ks[1..]);
      MonthsCount(Select(ps, Year, ks[0]));
      ArchiveTotalIsSum(ps, ks[1..]);
    }
  }

  /** The leaf sizes sum to the number of input posts. */
  lemma ArchiveCount(ps: seq<Post>)
    ensures ArchiveTotal(Archive(ps)) == |ps|
  {
    ArchiveTotalIsSum(ps, SortedKeys(ps, Year));
    SumSelectIsLength(ps, Year, SortedKeys(ps, Year));
  }

  /** Posts supplied newest first stay newest first inside every day. */
  lemma ArchiveDayOrder(ps: seq<Post>)
    requires NewestFirst(ps)
    ensures forall i, j, k ::
      (0 <= i < |Archive(ps)| && 0 <= j < |Archive(ps)[i].months| && 0 <= k < |Archive(ps)[i].months[j].days|)
      ==> NewestFirst(Archive(ps)[i].months[j].days[k].posts)
  {
    var a := Archive(ps);
    ArchiveLeaves(ps);
    forall i, j, k | 0 <= i < |a| && 0 <= j < |a[i].months| && 0 <= k < |a[i].months[j].days|
      ensures NewestFirst(a[i].months[j].days[k].posts)
    {
      FilterKeepsOrder(ps, (p: Post) => OnDate(p, a[i].year, a[i].months[j].month, a[i].months[j].days[k].day));
    }
  }

  // ---------------------------------------------------------------------------
  // The method: one pass into nested maps, then the sorted re-nesting

  type DayMap = map<int, seq<Post>>
  type MonthMap = map<int, DayMap>
  type YearMap = map<int, MonthMap>

  ghost predicate DaysBucketed(dm: DayMap, ps: seq<Post>)
  {
    && (forall d :: d in dm <==> d in SortedKeys(ps, Day))
    && (forall d :: d in dm ==> dm[d] == Select(ps, Day, d))
  }

  ghost predicate MonthsBucketed(mm: MonthMap, ps: seq<Post>)
  {
    && (forall m :: m in mm <==> m in SortedKeys(ps, Month))
    && (forall m :: m in mm ==> DaysBucketed(mm[m], Select(ps, Month, m)))
  }

  /** The nested maps hold, under each key path, the posts seen so far with that date, in order. */
  ghost predicate YearsBucketed(ym: YearMap, ps: seq<Post>)
  {
    && (forall y :: y in ym <==> y in SortedKeys(ps, Year))
    && (forall y :: y in ym ==> MonthsBucketed(ym[y], Select(ps, Year, y)))
  }

  function AddToDays(dm: DayMap, p: Post): DayMap
  {
    var d := p.publishDate.day;
    dm[d := (if d in dm then dm[d] else []) + [p]]
  }

  function AddToMonths(mm: MonthMap, p: Post): MonthMap
  {
    var m := p.publishDate.month;
    mm[m := AddToDays(if m in mm then mm[m] else map[], p)]
  }

  /** One step of the first pass: `p` appended under its year, month and day. */
  function AddToYears(ym: YearMap, p: Post): YearMap
  {
    var y := p.publishDate.year;
    ym[y := AddToMonths(if y in ym then ym[y] else map[], p)]
  }

  lemma SortedKeysSnoc(ps: seq<Post>, p: Post, l: Level)
    ensures SortedKeys(ps + [p], l) == InsertDesc(Key(p, l), SortedKeys(ps, l))
  {
    assert (ps + [p])[..|ps|] == ps;
  }

  /** A key no post has selects nothing. */
  lemma EmptyBucket(ps: seq<Post>, l: Level, k: int)
    requires k !in SortedKeys(ps, l)
    ensures Select(ps, l, k) == []
  {
    KeysOccupied(ps, l, k);
  }

  lemma DaysSnoc(dm: DayMap, ps: seq<Post>, p: Post)
    requires DaysBucketed(dm, ps)
    ensures DaysBucketed(AddToDays(dm, p), ps + [p])
  {
    SortedKeysSnoc(ps, p, Day);
    var dm' := AddToDays(dm, p);
    forall d | d in dm' ensures dm'[d] == Select(ps + [p], Day, d) {
      SelectSnoc(ps, p, Day, d);
      if d !in dm {
        EmptyBucket(ps, Day, d);
      }
    }
  }

  lemma MonthsSnocHere(mm: MonthMap, ps: seq<Post>, p: Post)
    requires MonthsBucketed(mm, ps)
    ensures DaysBucketed(AddToMonths(mm, p)[p.publishDate.month], Select(ps + [p], Month, p.publishDate.month))
  {
    var m := p.publishDate.month;
    SelectSnoc(ps, p, Month, m);
    if m !in mm {
      EmptyBucket(ps, Month, m);
      DaysSnoc(map[], [], p);
    } else {
      DaysSnoc(mm[m], Select(ps, Month, m), p);
    }
  }

  lemma MonthsSnocOther(mm: MonthMap, ps: seq<Post>, p: Post, m: int)
    requires MonthsBucketed(mm, ps)
    requires m in mm && m != p.publishDate.month
    ensures DaysBucketed(AddToMonths(mm, p)[m], Select(ps + [p], Month, m))
  {
    assert AddToMonths(mm, p)[m] == mm[m];
    SelectSnoc(ps, p, Month, m);
    assert Select(ps + [p], Month, m) == Select(ps, Month, m);
    assert DaysBucketed(mm[m], Select(ps, Month, m));
  }

  lemma MonthsSnoc(mm: MonthMap, ps: seq<Post>, p: Post)
    requires MonthsBucketed(mm, ps)
    ensures MonthsBucketed(AddToMonths(mm, p), ps + [p])
  {
    SortedKeysSnoc(ps, p, Month);
    var mm' := AddToMonths(mm, p);
    forall m | m in mm'
      ensures DaysBucketed(mm'[m], Select(ps + [p], Month, m))
    {
      if m == p.publishDate.month {
        MonthsSnocHere(mm, ps, p);
      } else {
        MonthsSnocOther(mm, ps, p, m);
      }
    }
  }

  lemma YearsSnocHere(ym: YearMap, ps: seq<Post>, p: Post)
    requires YearsBucketed(ym, ps)
    ensures MonthsBucketed(AddToYears(ym, p)[p.publishDate.year], Select(ps + [p], Year, p.publishDate.year))
  {
    var y := p.publishDate.year;
    SelectSnoc(ps, p, Year, y);
    if y !in ym {
      EmptyBucket(ps, Year, y);
      MonthsSnoc(map[], [], p);
    } else {
      MonthsSnoc(ym[y], Select(ps, Year, y), p);
    }
  }

  lemma YearsSnocOther(ym: YearMap, ps: seq<Post>, p: Post, y: int)
    requires YearsBucketed(ym, ps)
    requires y in ym && y != p.publishDate.year
    ensures MonthsBucketed(AddToYears(ym, p)[y], Select(ps + [p], Year, y))
  {
    assert AddToYears(ym, p)[y] == ym[y];
    SelectSnoc(ps, p, Year, y);
    assert Select(ps + [p], Year, y) == Select(ps, Year, y);
    assert MonthsBucketed(ym[y], Select(ps, Year, y));
  }

  /** Appending a post to its bucket keeps the maps in step with the posts seen. */
  lemma YearsSnoc(ym: YearMap, ps: seq<Post>, p: Post)
    requires YearsBucketed(ym, ps)
    ensures YearsBucketed(AddToYears(ym, p), ps + [p])
  {
    SortedKeysSnoc(ps, p, Year);
    var ym' := AddToYears(ym, p);
    forall y | y in ym'
      ensures MonthsBucketed(ym'[y], Select(ps + [p], Year, y))
    {
      if y == p.publishDate.year {
        YearsSnocHere(ym, ps, p);
      } else {
        YearsSnocOther(ym, ps, p, y);
      }
    }
  }

  /** The maps after the first pass has seen `ps`. */
  function BucketsOf(ps: seq<Post>): YearMap
  {
    if ps == [] then map[] else AddToYears(BucketsOf(ps[..|ps| - 1]), ps[|ps| - 1])
  }

  lemma {:induction false} BucketsOfBucketed(ps: seq<Post>)
    ensures YearsBucketed(BucketsOf(ps), ps)
  {
    if ps != [] {
      var init := ps[..|ps| - 1];
      BucketsOfBucketed(init);
      YearsSnoc(BucketsOf(init), init, ps[|ps| - 1]);
      assert ps == init + [ps[|ps| - 1]];
    }
  }

  lemma DaysFromSnoc(ps: seq<Post>, ks: seq<int>, i: nat)
    requires i < |ks|
    ensures DaysFrom(ps, ks[..i + 1]) == DaysFrom(ps, ks[..i]) + [DayBucket(ks[i], Select(ps, Day, ks[i]))]
  {
  }

  lemma MonthsFromSnoc(ps: seq<Post>, ks: seq<int>, i: nat)
    requires i < |ks|
    ensures MonthsFrom(ps, ks[..i + 1]) == MonthsFrom(ps, ks[..i]) + [MonthBucket(ks[i], DaysOf(Select(ps, Month, ks[i])))]
  {
  }

  lemma YearsFromSnoc(ps: seq<Post>, ks: seq<int>, i: nat)
    requires i < |ks|
    ensures YearsFrom(ps, ks[..i + 1]) == YearsFrom(ps, ks[..i]) + [YearBucket(ks[i], MonthsOf(Select(ps, Year, ks[i])))]
  {
  }

  /** The query `get_post_archive` passes to `build_query`: no series, not featured-only. */
  function ArchiveQuery(requirePublished: bool, year: Option<int>, month: Option<int>,
                        categorySlug: Option<string>, tag: Option<string>): Query
  {
    Query(requirePublished, year, month, categorySlug, None, tag, false)
  }

  /** `get_post_archive` on `Post.objects` over the stored posts `db`. */
  method GetPostArchive(db: seq<Post>, requirePublished: bool, year: Option<int>, month: Option<int>,
                        categorySlug: Option<string>, tag: Option<string>, now: DateTime)
    returns (archive: seq<YearBucket>)
    ensures archive == Archive(OrderByNewest(BuildQuery(AllPosts(db),
                         ArchiveQuery(requirePublished, year, month, categorySlug, tag), now)))
    ensures ArchiveWellFormed(archive)
    ensures ArchiveTotal(archive) == |BuildQuery(AllPosts(db), ArchiveQuery(requirePublished, year, month, categorySlug, tag), now)|
  {
    var posts := OrderByNewest(BuildQuery(AllPosts(db), ArchiveQuery(requirePublished, year, month, categorySlug, tag), now));
    var buckets := BucketPosts(posts);
    BucketsOfBucketed(posts);
    archive := NestSorted(buckets, posts);
    ArchiveCount(posts);
    assert |posts| == |multiset(posts)|;
  }

  /** The first pass: every post appended to the list at its year, month and day. */
  method BucketPosts(posts: seq<Post>) returns (buckets: YearMap)
    ensures buckets == BucketsOf(posts)
  {
    buckets := map[];
    var i := 0;
    while i < |posts|
      invariant 0 <= i <= |posts|
      invariant buckets == BucketsOf(posts[..i])
    {
      assert posts[..i + 1][..i] == posts[..i];
      buckets := AppendPost(buckets, posts[i]);
      i := i + 1;
    }
    assert posts[..i] == posts;
  }

  /** The loop body of the first pass: missing levels created, then the post appended. */
  method AppendPost(buckets: YearMap, p: Post) returns (r: YearMap)
    ensures r == AddToYears(buckets, p)
  {
    var y, m, d := p.publishDate.year, p.publishDate.month, p.publishDate.day;
    r := buckets;
    if y !in r {
      r := r[y := map[]];
    }
    var months := r[y];
    ghost var oldMonths := months;
    if m !in months {
      months := months[m := map[]];
    }
    var days := months[m];
    ghost var oldDays := days;
    if d !in days {
      days := days[d := []];
    }
    days := days[d := days[d] + [p]];
    assert days == AddToDays(oldDays, p);
    assert months[m := days] == AddToMonths(oldMonths, p);
    r := r[y := months[m := days]];
  }

  /** The second pass over years: keys sorted descending, each year's months nested in turn. */
  method NestSorted(buckets: YearMap, ghost posts: seq<Post>) returns (sortedYears: seq<YearBucket>)
    requires YearsBucketed(buckets, posts)
    ensures sortedYears == Archive(posts)
  {
    var years := SortedDesc(buckets.Keys);
    DescendingUnique(years, SortedKeys(posts, Year));
    sortedYears := [];
    var yi := 0;
    while yi < |years|
      invariant 0 <= yi <= |years|
      invariant sortedYears == YearsFrom(posts, years[..yi])
    {
      var y := years[yi];
      var sortedMonths := NestMonths(buckets[y], Select(posts, Year, y));
      YearsFromSnoc(posts, years, yi);
      sortedYears := sortedYears + [YearBucket(y, sortedMonths)];
      yi := yi + 1;
    }
    assert years[..yi] == years;
  }

  method NestMonths(monthMap: MonthMap, ghost posts: seq<Post>) returns (sortedMonths: seq<MonthBucket>)
    requires MonthsBucketed(monthMap, posts)
    ensures sortedMonths == MonthsOf(posts)
  {
    var months := SortedDesc(monthMap.Keys);
    DescendingUnique(months, SortedKeys(posts, Month));
    sortedMonths := [];
    var mi := 0;
    while mi < |months|
      invariant 0 <= mi <= |months|
      invariant sortedMonths == MonthsFrom(posts, months[..mi])
    {
      var m := months[mi];
      var sortedDays := NestDays(monthMap[m], Select(posts, Month, m));
      MonthsFromSnoc(posts, months, mi);
      sortedMonths := sortedMonths + [MonthBucket(m, sortedDays)];
      mi := mi + 1;
    }
    assert months[..mi] == months;
  }

  method NestDays(dayMap: DayMap, ghost posts: seq<Post>) returns (sortedDays: seq<DayBucket>)
    requires DaysBucketed(dayMap, posts)
    ensures sortedDays == DaysOf(posts)
  {
    var days := SortedDesc(dayMap.Keys);
    DescendingUnique(days, SortedKeys(posts, Day));
    sortedDays := [];
    var di := 0;
    while di < |days|
      invariant 0 <= di <= |days|
      invariant sortedDays == DaysFrom(posts, days[..di])
    {
      var d := days[di];
      DaysFromSnoc(posts, days, di);
      sortedDays := sortedDays + [DayBucket(d, dayMap[d])];
      di := di + 1;
    }
    assert days[..di] == days;
  }
}
