/**
 * The values that the context processors and the template tags store in a
 * template context, under the names chosen by the caller or the template.
 */
module TemplateValues {
  import opened Records
  import opened PostArchive

  datatype Value =
    | PostList(posts: seq<Post>)
    | Number(n: int)
    | CategoryValue(category: Category)
    | SeriesValue(series: Series)
    | Str(text: string)
    | CategoryList(categories: seq<Category>)
    | ArchiveValue(archive: seq<YearBucket>)
}
