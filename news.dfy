/** Entities shared by the feed adapters and the aggregator. */
module News {
  import opened Wrappers

  /** The `Article` dataclass that the BBC and CNN adapters both declare.
      Both adapters always set `content`, so it is a plain string here. */
  datatype Article = Article(title: string, url: string, source: string, content: string)

  /** One RSS entry as feedparser hands it over: a key may be missing. */
  datatype FeedEntry = FeedEntry(title: Option<string>, link: Option<string>, summary: Option<string>)

  /** One dictionary of the unified list (`{"source", "title", "url", "content"}`);
      `None` stands for a key the dictionary lacks. */
  datatype NewsItem = NewsItem(source: Option<string>, title: Option<string>,
                               url: Option<string>, content: Option<string>)
}
