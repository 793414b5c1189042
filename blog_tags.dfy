/**
 * The template tags of blog/templatetags/blog_tags.py: the argument parsers
 * of `get_blog_tag_posts`, `get_blog_post_archive` and
 * `get_blog_categories`, the literal-or-variable reading of a tag argument,
 * and the nodes that store their results in the template context.
 */
module BlogTags {
  import opened Wrappers
  import opened Records
  import opened Text
  import opened Managers
  import opened PostArchive
  import opened TemplateValues

  // ---------------------------------------------------------------------------
  // `lit_or_val`

  /**
   * What `lit_or_val` makes of a tag argument: nothing, a quoted literal with
   * its quotes removed, a number, or a name to resolve in the context.
   */
  datatype LitValue = NoValue | Literal(text: string) | Numeral(n: nat) | Variable(name: string)

  predicate IsQuote(c: char)
  {
    c == '"' || c == '\''
  }

  function LitOrVal(arg: Option<string>): (r: LitValue)
    ensures r.NoValue? <==> arg.None? || arg.value == ""
    ensures r.Literal? ==> |arg.value| >= 1 && IsQuote(arg.value[0]) && arg.value[0] == arg.value[|arg.value| - 1]
    ensures r.Literal? && |arg.value| >= 2 ==> arg.value == [arg.value[0]] + r.text + [arg.value[0]]
    ensures r.Numeral? ==> AllDigits(arg.value) && ParseDecimal(arg.value) == r.n
    ensures r.Variable? ==> r.name == arg.value
    ensures r.Variable? ==> !AllDigits(arg.value) && !(IsQuote(arg.value[0]) && arg.value[0] == arg.value[|arg.value| - 1])
    ensures r.Literal? && |arg.value| == 1 ==> r.text == ""
  {
    if arg.None? || arg.value == "" then NoValue
    else
      var s := arg.value;
      if s[0] == s[|s| - 1] && IsQuote(s[0]) then Literal(if |s| >= 2 then s[1..|s| - 1] else "")
      else if AllDigits(s) then Numeral(ParseDecimal(s))
      else Variable(s)
  }

  /** Quoting a string with either quote character and reading it back gives the string. */
  lemma LiteralRoundTrip(q: char, s: string)
    requires IsQuote(q)
    ensures LitOrVal(Some([q] + s + [q])) == Literal(s)
  {
    var t := [q] + s + [q];
    assert t[1..|t| - 1] == s;
  }

  /** A number written out in decimal reads back as that number; a lone quote reads as the empty literal. */
  lemma NumeralRoundTrip(n: nat, q: char)
    requires IsQuote(q)
    ensures LitOrVal(Some(Digits(n))) == Numeral(n)
    ensures LitOrVal(Some([q])) == Literal("")
  {
    var d := Digits(n);
    assert IsDigit(d[0]);
    ParseDigits(n);
  }

  // ---------------------------------------------------------------------------
  // `do_get_blog_tag_posts`

  /**
   * The whitespace of Python 2.7's `unicode.split()` (the tag's contents are a
   * unicode string): the control characters 9 to 13 and 28 to 31, the space,
   * NEL, the no-break space and the other Unicode 5.2 space separators, and
   * the line and paragraph separators.
   */
  predicate IsSpace(c: char)
  {
    var n := c as int;
    (9 <= n <= 13) || (28 <= n <= 32) || n == 0x85 || n == 0xA0 || n == 0x1680 || n == 0x180E
    || (0x2000 <= n <= 0x200A) || n == 0x2028 || n == 0x2029 || n == 0x202F || n == 0x205F || n == 0x3000
  }

  predicate NoSpace(s: string)
  {
    forall i :: 0 <= i < |s| ==> !IsSpace(s[i])
  }

  /** `s` without its leading whitespace. */
  function DropSpace(s: string): (r: string)
    ensures |r| <= |s| && r == s[|s| - |r|..]
    ensures r == [] || !IsSpace(r[0])
    ensures forall i :: 0 <= i < |s| - |r| ==> IsSpace(s[i])
    ensures r == [] <==> forall i :: 0 <= i < |s| ==> IsSpace(s[i])
  {
    if s != [] && IsSpace(s[0]) then DropSpace(s[1..]) else s
  }

  /** The length of the leading run of non-whitespace characters. */
  function WordEnd(s: string): (k: nat)
    ensures k <= |s| && NoSpace(s[..k])
    ensures k == |s| || IsSpace(s[k])
  {
    if s == [] || IsSpace(s[0]) then 0
    else
      var k := WordEnd(s[1..]);
      assert s[..k + 1] == [s[0]] + s[1..][..k];
      k + 1
  }

  /** The length of the leading run of `\w` characters. */
  function WordRun(s: string): (k: nat)
    ensures k <= |s| && forall i :: 0 <= i < k ==> IsWordChar(s[i])
    ensures k == |s| || !IsWordChar(s[k])
  {
    if s == [] || !IsWordChar(s[0]) then 0 else WordRun(s[1..]) + 1
  }

  /** ` as ` followed by a word character starts at position `i`. */
  predicate AsAt(s: string, i: nat)
  {
    i + 4 < |s| && s[i] == ' ' && s[i + 1] == 'a' && s[i + 2] == 's' && s[i + 3] == ' ' && IsWordChar(s[i + 4])
  }

  /** No newline between positions `i` and `j`. */
  predicate NoNewline(s: string, i: nat, j: nat)
    requires i <= j <= |s|
  {
    forall k :: i <= k < j ==> s[k] != '\n'
  }

  /**
   * The split point of `(.*?) as (\w+)` matched from position `i`: the
   * leftmost ` as ` before any newline (`.` does not cross one).
   */
  function FindAs(s: string, i: nat): (r: Option<nat>)
    requires i <= |s|
    ensures r.Some? ==> i <= r.value < |s| && AsAt(s, r.value) && NoNewline(s, i, r.value)
    ensures r.Some? ==> forall j :: i <= j < r.value ==> !AsAt(s, j)
    ensures r.None? ==> forall j :: i <= j < |s| && AsAt(s, j) ==> !NoNewline(s, i, j)
    decreases |s| - i
  {
    if i + 4 >= |s| then None
    else if AsAt(s, i) then Some(i)
    else if s[i] == '\n' then None
    else FindAs(s, i + 1)
  }

  /** The tag and the variable name of `{% get_blog_tag_posts tag as var %}`. */
  datatype TagPostsArgs = TagPostsArgs(tag: string, varName: string)

  /**
   * The second piece of `contents.split(None, 1)`, when there are two: the
   * text after the first word and the whitespace that follows it.
   */
  function SplitRest(contents: string): (r: Option<string>)
    ensures r.Some? ==> r.value != [] && !IsSpace(r.value[0])
  {
    var t := DropSpace(contents);
    var rest := DropSpace(t[WordEnd(t)..]);
    if rest == [] then None else Some(rest)
  }

  /** `re.match(r'(.*?) as (\w+)', rest)`: the text before the first ` as `, and the word after it. */
  function MatchTagArgs(rest: string): (r: Option<TagPostsArgs>)
    ensures r.Some? ==> |r.value.tag| < |rest| && r.value.tag == rest[..|r.value.tag|]
    ensures r.Some? ==> forall k :: 0 <= k < |r.value.tag| ==> r.value.tag[k] != '\n'
    ensures r.Some? ==> r.value.varName != [] && forall k :: 0 <= k < |r.value.varName| ==> IsWordChar(r.value.varName[k])
    ensures r.None? <==> forall j :: 0 <= j < |rest| && AsAt(rest, j) ==> !NoNewline(rest, 0, j)
    ensures r.Some? && rest != [] && !IsSpace(rest[0]) ==> r.value.tag != []
    ensures r.None? <==> FindAs(rest, 0).None?
    ensures r.Some? ==>
      && FindAs(rest, 0) == Some(|r.value.tag|)
      && r.value.varName == rest[|r.value.tag| + 4..][..WordRun(rest[|r.value.tag| + 4..])]
  {
    match FindAs(rest, 0)
    case None => None
    case Some(i) =>
      var tail := rest[i + 4..];
      Some(TagPostsArgs(rest[..i], tail[..WordRun(tail)]))
  }

  /**
   * `do_get_blog_tag_posts` on the token's contents: the tag name and the
   * rest split off at the first run of whitespace, then the regular
   * expression on the rest. Contents of whitespace alone fail on
   * `split()[0]`; a lone word or a rest without ` as word` is a syntax error.
   */
  function ParseTagPostsTag(contents: string): (r: Result<TagPostsArgs, Error>)
    ensures r == Failure(IndexError) <==> forall i :: 0 <= i < |contents| ==> IsSpace(contents[i])
    ensures r.Failure? ==> r.error == IndexError || r.error == TemplateSyntaxError
    ensures r.Success? ==>
      && r.value.tag != [] && (forall k :: 0 <= k < |r.value.tag| ==> r.value.tag[k] != '\n')
      && r.value.varName != [] && forall k :: 0 <= k < |r.value.varName| ==> IsWordChar(r.value.varName[k])
    ensures DropSpace(contents) != [] && SplitRest(contents).None? ==> r == Failure(TemplateSyntaxError)
    ensures SplitRest(contents).Some? ==>
      && (r.Success? <==> MatchTagArgs(SplitRest(contents).value).Some?)
      && (r.Success? ==> r.value == MatchTagArgs(SplitRest(contents).value).value)
  {
    if DropSpace(contents) == [] then Failure(IndexError)
    else
      match SplitRest(contents)
      case None => Failure(TemplateSyntaxError)
      case Some(rest) =>
        match MatchTagArgs(rest)
        case None => Failure(TemplateSyntaxError)
        case Some(a) => Success(a)
  }

  lemma DropSpaceOfWord(s: string)
    requires s != [] && !IsSpace(s[0])
    ensures DropSpace(s) == s
  {
  }

  /** `WordEnd` of a word followed by whitespace is the word's length. */
  lemma {:induction false} WordEndOf(w: string, rest: string)
    requires NoSpace(w) && rest != [] && IsSpace(rest[0])
    ensures WordEnd(w + rest) == |w|
  {
    if w != [] {
      assert (w + rest)[1..] == w[1..] + rest;
      WordEndOf(w[1..], rest);
    }
  }

  /** A run of word characters at the end of a string is taken whole. */
  lemma {:induction false} WordRunAll(v: string)
    requires forall i :: 0 <= i < |v| ==> IsWordChar(v[i])
    ensures WordRun(v) == |v|
  {
    if v != [] {
      WordRunAll(v[1..]);
    }
  }

  /**
   * The usage `{% get_blog_tag_posts tag as var %}` parses back into its tag
   * and variable name, for a tag without whitespace and a `\w+` name.
   */
  lemma TagPostsRoundTrip(name: string, tag: string, varName: string)
    requires name != [] && NoSpace(name)
    requires tag != [] && NoSpace(tag)
    requires varName != [] && forall i :: 0 <= i < |varName| ==> IsWordChar(varName[i])
    ensures ParseTagPostsTag(name + " " + tag + " as " + varName) == Success(TagPostsArgs(tag, varName))
  {
    var rest := tag + " as " + varName;
    assert rest[0] == tag[0];
    var contents := name + " " + tag + " as " + varName;
    assert contents == name + " " + rest;
    HeadSplit(name, rest);
    MatchAfterTag(tag, varName);
    assert DropSpace(contents) != [] && SplitRest(contents) == Some(rest);
  }

  /** Splitting `name rest` at its first whitespace gives `rest`, when `rest` starts with a non-space. */
  lemma HeadSplit(name: string, rest: string)
    requires name != [] && NoSpace(name)
    requires rest != [] && !IsSpace(rest[0])
    ensures DropSpace(name + " " + rest) != []
    ensures SplitRest(name + " " + rest) == Some(rest)
  {
    var after := " " + rest;
    var contents := name + after;
    assert name + " " + rest == contents;
    DropSpaceOfWord(contents);
    WordEndOf(name, after);
    assert contents[|name|..] == after;
    assert after[1..] == rest;
    DropSpaceOfWord(rest);
  }

  /** The regular expression on `tag as var` gives the tag and the name back. */
  lemma MatchAfterTag(tag: string, varName: string)
    requires NoSpace(tag)
    requires varName != [] && forall i :: 0 <= i < |varName| ==> IsWordChar(varName[i])
    ensures MatchTagArgs(tag + " as " + varName) == Some(TagPostsArgs(tag, varName))
  {
    var rest := tag + " as " + varName;
    FindAsAfterTag(tag, varName);
    assert rest[|tag| + 4..] == varName;
    WordRunAll(varName);
    assert varName[..|varName|] == varName;
    assert rest[..|tag|] == tag;
  }

  /** In `tag as var`, with no whitespace in the tag, the first ` as ` is the one after the tag. */
  lemma FindAsAfterTag(tag: string, varName: string)
    requires NoSpace(tag)
    requires varName != [] && IsWordChar(varName[0])
    ensures FindAs(tag + " as " + varName, 0) == Some(|tag|)
  {
    var rest := tag + " as " + varName;
    var k := |tag|;
    assert rest[k..k + 4] == " as " && rest[k + 4] == varName[0];
    assert AsAt(rest, k);
    assert forall j :: 0 <= j < k ==> rest[j] == tag[j] && !AsAt(rest, j);
  }

  // ---------------------------------------------------------------------------
  // `do_get_blog_post_archive` and `do_get_blog_categories`

  /** The variable name and the optional year and month of `get_blog_post_archive`. */
  datatype ArchiveTagArgs = ArchiveTagArgs(varName: string, year: Option<string>, month: Option<string>)

  /**
   * `do_get_blog_post_archive` on the split contents: `args[-2]` must be
   * `as`; a fourth word gives the year, a fifth the month, a sixth is too many.
   */
  function ParseArchiveTag(args: seq<string>): (r: Result<ArchiveTagArgs, Error>)
    ensures r == Failure(IndexError) <==> |args| < 2
    ensures r.Success? <==> 2 <= |args| <= 5 && args[|args| - 2] == "as"
    ensures r.Success? ==> r.value.month.Some? ==> r.value.year.Some?
    ensures r.Success? ==> r.value.varName == args[|args| - 1]
    ensures r.Success? ==> (r.value.year.Some? <==> |args| >= 4) && (r.value.year.Some? ==> r.value.year.value == args[1])
    ensures r.Success? ==> (r.value.month.Some? <==> |args| == 5) && (r.value.month.Some? ==> r.value.month.value == args[2])
    ensures r.Failure? ==> r.error == IndexError || r.error == TemplateSyntaxError
  {
    if |args| < 2 then Failure(IndexError)
    else if args[|args| - 2] != "as" then Failure(TemplateSyntaxError)
    else
      var year := if |args| > 3 then Some(args[1]) else None;
      var month := if |args| > 4 then Some(args[2]) else None;
      if |args| > 5 then Failure(TemplateSyntaxError)
      else Success(ArchiveTagArgs(args[|args| - 1], year, month))
  }

  /** The words of the usage `{% name [year] [month] as var %}`. */
  function ArchiveTagWords(name: string, a: ArchiveTagArgs): seq<string>
  {
    [name]
    + (if a.year.Some? then [a.year.value] else [])
    + (if a.month.Some? then [a.month.value] else [])
    + ["as", a.varName]
  }

  /** Every usage parses back into what it was written from. */
  lemma ArchiveTagRoundTrip(name: string, a: ArchiveTagArgs)
    requires a.month.Some? ==> a.year.Some?
    ensures ParseArchiveTag(ArchiveTagWords(name, a)) == Success(a)
  {
    var w := ArchiveTagWords(name, a);
    assert w[|w| - 2] == "as" && w[|w| - 1] == a.varName;
  }

  /** Every usage of three words or more that parses is the usage of what it parses to. */
  lemma ArchiveTagWordsBack(args: seq<string>)
    requires |args| >= 3 && ParseArchiveTag(args).Success?
    ensures ArchiveTagWords(args[0], ParseArchiveTag(args).value) == args
  {
    var w := ArchiveTagWords(args[0], ParseArchiveTag(args).value);
    assert |w| == |args|;
    assert forall i :: 0 <= i < |args| ==> w[i] == args[i];
  }

  /**
   * `do_get_blog_categories`: `args[-2]` is read first, so fewer than two
   * words fail with an index error; otherwise exactly `name as var`.
   */
  function ParseCategoriesTag(args: seq<string>): (r: Result<string, Error>)
    ensures r == Failure(IndexError) <==> |args| < 2
    ensures r.Success? <==> |args| == 3 && args[1] == "as"
    ensures r.Success? ==> r.value == args[2]
    ensures r.Failure? ==> r.error == IndexError || r.error == TemplateSyntaxError
  {
    if |args| < 2 then Failure(IndexError)
    else if args[|args| - 2] != "as" || |args| != 3 then Failure(TemplateSyntaxError)
    else Success(args[|args| - 1])
  }

  // ---------------------------------------------------------------------------
  // Rendering

  /**
   * The posts `BlogTagPostsNode` stores: the stored posts carrying the tag,
   * only the visible ones unless the user is staff, newest first.
   */
  function TagPostsFor(db: seq<Post>, isStaff: bool, tag: string, now: DateTime): (r: seq<Post>)
    ensures forall p :: p in r <==> p in db && tag in p.tags && (!isStaff ==> Visible(p, now))
  {
    var base := if isStaff then AllPosts(db) else GetPublishedPosts(AllPosts(db), now);
    Filter(base, (p: Post) => tag in p.tags)
  }

  /** The tag node's posts are the posts `build_query` selects by that tag, in the manager's order. */
  lemma TagPostsAreQuery(db: seq<Post>, isStaff: bool, tag: string, now: DateTime)
    requires tag != ""
    ensures TagPostsFor(db, isStaff, tag, now)
         == BuildQuery(AllPosts(db), Query(!isStaff, None, None, None, None, Some(tag), false), now)
  {
    var all := AllPosts(db);
    var q := Query(!isStaff, None, None, None, None, Some(tag), false);
    var hasTag := (p: Post) => tag in p.tags;
    if isStaff {
      FilterExt(all, hasTag, p => Matches(q, now, p));
    } else {
      FilterFuse(all, p => Visible(p, now), hasTag, p => Matches(q, now, p));
    }
  }

  /** The archive `PostArchiveNode` stores: drafts and future posts hidden unless the user is staff. */
  function ArchiveFor(db: seq<Post>, isStaff: bool, year: Option<int>, month: Option<int>, now: DateTime): (r: seq<YearBucket>)
    ensures ArchiveWellFormed(r)
    ensures LeavesExact(r, OrderByNewest(BuildQuery(AllPosts(db), ArchiveQuery(!isStaff, year, month, None, None), now)))
    ensures ArchiveTotal(r) == |BuildQuery(AllPosts(db), ArchiveQuery(!isStaff, year, month, None, None), now)|
  {
    var posts := OrderByNewest(BuildQuery(AllPosts(db), ArchiveQuery(!isStaff, year, month, None, None), now));
    ArchiveLeaves(posts);
    ArchiveCount(posts);
    assert |posts| == |multiset(posts)|;
    Archive(OrderByNewest(BuildQuery(AllPosts(db), ArchiveQuery(!isStaff, year, month, None, None), now)))
  }

  /** The template context, which the nodes' `render` methods write into. */
  class TemplateContext {
    var vars: map<string, Value>

    constructor()
      ensures vars == map[]
    {
      vars := map[];
    }

    /** `BlogCategoriesNode.render`: all categories under the variable name; renders nothing. */
    method RenderCategories(varName: string, categories: seq<Category>) returns (output: string)
      modifies this
      ensures vars == old(vars)[varName := CategoryList(categories)]
      ensures output == ""
    {
      vars := vars[varName := CategoryList(categories)];
      output := "";
    }

    /**
     * `BlogTagPostsNode.render`: the tag argument is read by `lit_or_val`;
     * `resolved` stands for what a non-literal argument resolves to.
     */
    method RenderTagPosts(tagArg: string, resolved: string, varName: string,
                          db: seq<Post>, isStaff: bool, now: DateTime) returns (output: string)
      modifies this
      ensures var v := LitOrVal(Some(tagArg));
        var tag := if v.Literal? then v.text else resolved;
        vars == old(vars)[varName := PostList(TagPostsFor(db, isStaff, tag, now))]
      ensures output == ""
    {
      var v := LitOrVal(Some(tagArg));
      var tag := if v.Literal? then v.text else resolved;
      var base := if isStaff then AllPosts(db) else GetPublishedPosts(AllPosts(db), now);
      vars := vars[varName := PostList(Filter(base, (p: Post) => tag in p.tags))];
      output := "";
    }

    /** `PostArchiveNode.render`: the archive of the posts the user may see, for the year and month given. */
    method RenderArchive(varName: string, year: Option<int>, month: Option<int>,
                         db: seq<Post>, isStaff: bool, now: DateTime) returns (output: string)
      modifies this
      ensures vars == old(vars)[varName := ArchiveValue(ArchiveFor(db, isStaff, year, month, now))]
      ensures ArchiveWellFormed(ArchiveFor(db, isStaff, year, month, now))
      ensures output == ""
    {
      var archive := GetPostArchive(db, !isStaff, year, month, None, None, now);
      assert archive == ArchiveFor(db, isStaff, year, month, now);
      vars := vars[varName := ArchiveValue(archive)];
      output := "";
    }
  }
}
