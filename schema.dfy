/** The shapes of data that cross the boundary between the scraper, the remote
    `articles` table and the dashboard. Timestamps (`published_at`) are modelled
    as integers ordered like the ISO strings the scraper writes. */
module Schema {
  import opened Wrappers

  /** A row of the `articles` table, as the dashboard reads it with `select('*')`. */
  datatype Article = Article(
    id: int,
    title: string,
    source: string,
    url: string,
    summary: Option<string>,
    publishedAt: int,
    imageUrl: Option<string>,
    isSaved: bool,
    rawHtml: string)

  /** The dict a scraper builds for one link and `upsert_article` sends.
      `isSaved` is absent (`None`) until the upsert copies the stored flag into it. */
  datatype ArticleRecord = ArticleRecord(
    title: string,
    url: string,
    source: string,
    publishedAt: int,
    summary: string,
    rawHtml: string,
    isSaved: Option<bool>)
}
