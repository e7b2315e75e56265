/** The BBC adapter: the first `limit` RSS entries, stripped, unfiltered. */
module BbcNewsAgent {
  import opened Wrappers
  import opened Text
  import opened Html
  import opened News

  /** `ArticleFetcher.parse_bbc`: the `<p>` texts of the page's first
      `<article>`, or nothing when there is no page or no article. */
  function ParseBbc(url: string, fetchHtml: string -> Option<string>, parse: string -> Document): (r: string)
    ensures r != "" ==> fetchHtml(url).Some? && fetchHtml(url).value != ""
                        && parse(fetchHtml(url).value).article.Some?
                        && Select(parse(fetchHtml(url).value).article.value, IsParagraph) != []
  {
    var html := fetchHtml(url);
    if html.None? || html.value == "" then ""
    else
      var soup := parse(html.value);
      if soup.article.None? then ""
      else JoinParagraphs(Select(soup.article.value, IsParagraph))
  }

  /** No page, or a page without `<article>`, gives no text, and so does an
      article without `<p>`; otherwise the lines of the text are the texts of
      the article's `<p>` elements, in order, when none has a line break of
      its own. */
  lemma ParseBbcLines(url: string, fetchHtml: string -> Option<string>, parse: string -> Document)
    ensures fetchHtml(url).None? || fetchHtml(url) == Some("") ==> ParseBbc(url, fetchHtml, parse) == ""
    ensures fetchHtml(url).Some? && fetchHtml(url).value != "" && parse(fetchHtml(url).value).article.None? ==>
              ParseBbc(url, fetchHtml, parse) == ""
    ensures fetchHtml(url).Some? && fetchHtml(url).value != "" && parse(fetchHtml(url).value).article.Some? ==>
      var chosen := Select(parse(fetchHtml(url).value).article.value, IsParagraph);
      && (chosen == [] ==> ParseBbc(url, fetchHtml, parse) == "")
      && (chosen != [] && (forall k :: 0 <= k < |chosen| ==> '\n' !in GetText(chosen[k])) ==>
            Split(ParseBbc(url, fetchHtml, parse), '\n') == Texts(chosen))
  {
    var html := fetchHtml(url);
    if html.Some? && html.value != "" && parse(html.value).article.Some? {
      var chosen := Select(parse(html.value).article.value, IsParagraph);
      if chosen != [] && (forall k :: 0 <= k < |chosen| ==> '\n' !in GetText(chosen[k])) {
        JoinParagraphsLines(chosen);
      }
    }
  }

  /** Where Python's slice `entries[:stop]` ends, negative `stop` included. */
  function SliceEnd(n: nat, stop: int): (k: nat)
    ensures k <= n
  {
    if stop >= 0 then (if stop < n then stop else n)
    else if n + stop > 0 then n + stop else 0
  }

  /** One BBC entry as an article: stripped title, link and summary, a missing
      field read as "". */
  function BbcArticle(entry: FeedEntry): Article {
    Article(Strip(entry.title.GetOr("")), Strip(entry.link.GetOr("")), "BBC", Strip(entry.summary.GetOr("")))
  }

  /** What `NewsScraper.get_bbc_news(limit)` returns for the given feed entries. */
  function BbcNews(entries: seq<FeedEntry>, limit: int): (r: seq<Article>)
    ensures |r| <= |entries| && (limit >= 0 ==> |r| <= limit)
    ensures forall a :: a in r ==> a.source == "BBC" && Trimmed(a.title) && Trimmed(a.url) && Trimmed(a.content)
  {
    var n := SliceEnd(|entries|, limit);
    seq(n, k requires 0 <= k < n => BbcArticle(entries[k]))
  }

  /** One article per entry of the slice, in feed order, none filtered out:
      an entry with an empty title or link is kept. */
  lemma BbcNewsShape(entries: seq<FeedEntry>, limit: int)
    ensures limit >= 0 ==> |BbcNews(entries, limit)| == if limit < |entries| then limit else |entries|
    ensures limit < 0 ==> |BbcNews(entries, limit)| == if |entries| + limit > 0 then |entries| + limit else 0
    ensures forall k :: 0 <= k < |BbcNews(entries, limit)| ==>
      var a := BbcNews(entries, limit)[k];
      && a.source == "BBC"
      && a.title == Strip(entries[k].title.GetOr(""))
      && a.url == Strip(entries[k].link.GetOr(""))
      && a.content == Strip(entries[k].summary.GetOr(""))
      && Trimmed(a.title) && Trimmed(a.url) && Trimmed(a.content)
  {
  }

  /** `NewsScraper.get_bbc_news`: the loop over `feed.entries[:limit]`. */
  method GetBbcNews(entries: seq<FeedEntry>, limit: int) returns (articles: seq<Article>)
    ensures articles == BbcNews(entries, limit)
  {
    var slice := entries[..SliceEnd(|entries|, limit)];
    articles := [];
    for i := 0 to |slice|
      invariant |articles| == i
      invariant forall k :: 0 <= k < i ==> articles[k] == BbcArticle(slice[k])
    {
      var entry := slice[i];
      var title := Strip(entry.title.GetOr(""));
      var link := Strip(entry.link.GetOr(""));
      var summary := Strip(entry.summary.GetOr(""));
      articles := articles + [Article(title, link, "BBC", summary)];
    }
  }
}
