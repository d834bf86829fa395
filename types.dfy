/** The records of types.ts, as values. */
module Types {
  import opened Wrappers

  /** One story as the model returned it; `tags` keeps the model's order. */
  datatype NewsItem = NewsItem(headline: string, articleBody: string, appRemark: string, tags: seq<string>)

  /** One cited web page. */
  datatype GroundingSource = GroundingSource(title: string, uri: string)

  /** What the query service hands back: the stories and the deduplicated citations. */
  datatype NewsResponse = NewsResponse(items: seq<NewsItem>, sources: seq<GroundingSource>)

  /** The record the page renders from; `None` stands for JavaScript's `null`. */
  datatype SearchState = SearchState(isLoading: bool, error: Option<string>, data: Option<NewsResponse>)
}
