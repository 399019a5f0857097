/** The two records of `models/crawledUrl.ts`. */
module CrawledUrl {
  import opened Wrappers

  /** `ICrawlUrl`: a frontier entry. Seeds have no parent; a discovered link
      records the page it was found on. */
  datatype CrawlUrl = CrawlUrl(urlToCrawl: string, parentUrl: Option<string>)

  /** `ICrawledUrlError`: a failed entry. `statusCode` is the HTTP status, or
      -1 when fetching or rendering threw, in which case `errorMessage`
      carries the exception's message. */
  datatype CrawledUrlError = CrawledUrlError(
    url: string,
    statusCode: int,
    errorMessage: Option<string>,
    parentUrl: Option<string>)
}
