/** The CNN adapter: a junk-filtered walk over the RSS entries that fetches
    and extracts each kept article's body. */
module CnnNewsAgent {
  import opened Wrappers
  import opened Text
  import opened Html
  import opened News

  /** The paragraphs `parse_cnn` joins: the component paragraphs when the page
      has any, all `<p>` elements when it has none. */
  function ChosenParagraphs(soup: Document): seq<Element> {
    var tagged := Select(soup.elements, IsComponentParagraph);
    if tagged != [] then tagged else Select(soup.elements, IsParagraph)
  }

  /** `ArticleFetcher.parse_cnn`. `fetchHtml` stands for `fetch_html` (which turns
      every network failure into `None`) and `parse` for BeautifulSoup. */
  function ParseCnn(url: string, fetchHtml: string -> Option<string>, parse: string -> Document): (r: string)
    ensures r != "" ==> fetchHtml(url).Some? && fetchHtml(url).value != ""
                        && ChosenParagraphs(parse(fetchHtml(url).value)) != []
  {
    var html := fetchHtml(url);
    if html.None? || html.value == "" then ""
    else
      JoinParagraphs(ChosenParagraphs(parse(html.value)))
  }

  /** No page gives no text, and so does a page with no paragraph chosen;
      otherwise the lines of the text are the chosen paragraphs' texts, in
      order, when none of those texts has a line break of its own. */
  lemma ParseCnnLines(url: string, fetchHtml: string -> Option<string>, parse: string -> Document)
    ensures fetchHtml(url).None? || fetchHtml(url) == Some("") ==> ParseCnn(url, fetchHtml, parse) == ""
    ensures fetchHtml(url).Some? && fetchHtml(url).value != "" ==>
      var chosen := ChosenParagraphs(parse(fetchHtml(url).value));
      && (chosen == [] ==> ParseCnn(url, fetchHtml, parse) == "")
      && (chosen != [] && (forall k :: 0 <= k < |chosen| ==> '\n' !in GetText(chosen[k])) ==>
            Split(ParseCnn(url, fetchHtml, parse), '\n') == Texts(chosen))
  {
    var html := fetchHtml(url);
    if html.Some? && html.value != "" {
      var chosen := ChosenParagraphs(parse(html.value));
      if chosen != [] && (forall k :: 0 <= k < |chosen| ==> '\n' !in GetText(chosen[k])) {
        JoinParagraphsLines(chosen);
      }
    }
  }

  /** `"video" in title.lower()`. */
  predicate MentionsVideo(title: string) {
    Contains(Lower(title), "video")
  }

  /** `"/videos" in link`, case-sensitive. */
  predicate IsVideoLink(link: string) {
    Contains(link, "/videos")
  }

  /** A title with "video" in lower case mentions video: lower-casing leaves
      those letters as they are. */
  lemma LowerCaseVideoMentioned(title: string)
    ensures Contains(title, "video") ==> MentionsVideo(title)
  {
    if Contains(title, "video") {
      var k :| 0 <= k <= |title| && OccursAt(title, "video", k);
      var v := "video";
      forall j | 0 <= j < |v|
        ensures Lower(title)[k + j] == v[j]
      {
        assert title[k + j] == title[k..k + |v|][j] == v[j];
      }
      assert Lower(title)[k..k + |v|] == v;
      assert OccursAt(Lower(title), v, k);
    }
  }

  /** The junk filter of `get_cnn_news`, applied to the stripped title and link. */
  predicate IsJunk(title: string, link: string)
    ensures Contains(title, "video") ==> IsJunk(title, link)
  {
    LowerCaseVideoMentioned(title);
    title == "" || link == "" || MentionsVideo(title) || IsVideoLink(link)
  }

  /** The article `get_cnn_news` builds from one feed entry: stripped title and
      link, source "CNN", and the extracted page (possibly "") as content. */
  function CnnArticle(entry: FeedEntry, fetchHtml: string -> Option<string>, parse: string -> Document): Article {
    var link := Strip(entry.link.GetOr(""));
    Article(Strip(entry.title.GetOr("")), link, "CNN", ParseCnn(link, fetchHtml, parse))
  }

  /** Every entry that passes the junk filter, turned into an article, in feed order. */
  function CnnCandidates(entries: seq<FeedEntry>, fetchHtml: string -> Option<string>,
                         parse: string -> Document): (r: seq<Article>)
    ensures |r| <= |entries|
    ensures forall a :: a in r ==>
      && a.source == "CNN" && Trimmed(a.title) && Trimmed(a.url)
      && !IsJunk(a.title, a.url)
    decreases |entries|
  {
    if entries == [] then []
    else
      var before := CnnCandidates(entries[..|entries| - 1], fetchHtml, parse);
      var entry := entries[|entries| - 1];
      var title := Strip(entry.title.GetOr(""));
      var link := Strip(entry.link.GetOr(""));
      if IsJunk(title, link) then before
      else before + [CnnArticle(entry, fetchHtml, parse)]
  }

  /** Extending the feed by one entry adds that entry's article, unless it is junk. */
  lemma CnnCandidatesStep(entries: seq<FeedEntry>, i: nat,
                          fetchHtml: string -> Option<string>, parse: string -> Document)
    requires i < |entries|
    ensures var title := Strip(entries[i].title.GetOr(""));
            var link := Strip(entries[i].link.GetOr(""));
            CnnCandidates(entries[..i + 1], fetchHtml, parse)
              == CnnCandidates(entries[..i], fetchHtml, parse)
                 + if IsJunk(title, link) then [] else [CnnArticle(entries[i], fetchHtml, parse)]
  {
    assert entries[..i + 1][..i] == entries[..i];
  }

  /** Every candidate is the article of some feed entry that passes the junk
      filter; its content is the extraction for its own link. */
  lemma {:induction false} CnnCandidatesFromFeed(entries: seq<FeedEntry>, fetchHtml: string -> Option<string>,
                                                 parse: string -> Document)
    ensures forall a :: a in CnnCandidates(entries, fetchHtml, parse) ==>
      && a.content == ParseCnn(a.url, fetchHtml, parse)
      && exists i :: 0 <= i < |entries| && a == CnnArticle(entries[i], fetchHtml, parse)
    decreases |entries|
  {
    if entries != [] {
      var n := |entries|;
      var init := entries[..n - 1];
      CnnCandidatesFromFeed(init, fetchHtml, parse);
      forall a | a in CnnCandidates(entries, fetchHtml, parse)
        ensures a.content == ParseCnn(a.url, fetchHtml, parse)
        ensures exists i :: 0 <= i < n && a == CnnArticle(entries[i], fetchHtml, parse)
      {
        if a in CnnCandidates(init, fetchHtml, parse) {
          var i :| 0 <= i < n - 1 && a == CnnArticle(init[i], fetchHtml, parse);
          assert init[i] == entries[i];
        } else {
          assert a == CnnArticle(entries[n - 1], fetchHtml, parse);
        }
      }
    }
  }

  /** Conversely, every feed entry that passes the junk filter becomes a
      candidate: the filter drops exactly the junk. */
  lemma {:induction false} CnnCandidatesComplete(entries: seq<FeedEntry>, fetchHtml: string -> Option<string>,
                                                 parse: string -> Document, i: nat)
    requires i < |entries|
    requires !IsJunk(Strip(entries[i].title.GetOr("")), Strip(entries[i].link.GetOr("")))
    ensures CnnArticle(entries[i], fetchHtml, parse) in CnnCandidates(entries, fetchHtml, parse)
    decreases |entries|
  {
    var n := |entries|;
    if i < n - 1 {
      var init := entries[..n - 1];
      assert init[i] == entries[i];
      CnnCandidatesComplete(init, fetchHtml, parse, i);
    }
  }

  /** The candidates of a prefix of the feed are a prefix of the feed's candidates. */
  lemma {:induction false} CnnCandidatesPrefix(entries: seq<FeedEntry>, j: nat,
                                               fetchHtml: string -> Option<string>, parse: string -> Document)
    requires j <= |entries|
    ensures CnnCandidates(entries[..j], fetchHtml, parse) <= CnnCandidates(entries, fetchHtml, parse)
    decreases |entries|
  {
    if j < |entries| {
      var init := entries[..|entries| - 1];
      assert init[..j] == entries[..j];
      CnnCandidatesPrefix(init, j, fetchHtml, parse);
    } else {
      assert entries[..j] == entries;
    }
  }

  /** Once the candidates of a prefix fill the quota, they are the whole answer. */
  lemma CnnNewsReached(entries: seq<FeedEntry>, j: nat, fetchHtml: string -> Option<string>,
                       parse: string -> Document, limit: int)
    requires j <= |entries|
    requires |CnnCandidates(entries[..j], fetchHtml, parse)| == CnnQuota(limit)
    ensures CnnNews(entries, fetchHtml, parse, limit) == CnnCandidates(entries[..j], fetchHtml, parse)
  {
    CnnCandidatesPrefix(entries, j, fetchHtml, parse);
  }

  /** Which entries become articles, and with which titles and links, does not
      depend on the page fetches: a failed extraction keeps the article. */
  lemma {:induction false} CnnCandidatesIgnoreFetch(entries: seq<FeedEntry>,
                                                    fetch1: string -> Option<string>, parse1: string -> Document,
                                                    fetch2: string -> Option<string>, parse2: string -> Document)
    ensures |CnnCandidates(entries, fetch1, parse1)| == |CnnCandidates(entries, fetch2, parse2)|
    ensures forall k :: 0 <= k < |CnnCandidates(entries, fetch1, parse1)| ==>
      && CnnCandidates(entries, fetch1, parse1)[k].title == CnnCandidates(entries, fetch2, parse2)[k].title
      && CnnCandidates(entries, fetch1, parse1)[k].url == CnnCandidates(entries, fetch2, parse2)[k].url
    decreases |entries|
  {
    if entries != [] {
      CnnCandidatesIgnoreFetch(entries[..|entries| - 1], fetch1, parse1, fetch2, parse2);
    }
  }

  /** How many articles `get_cnn_news` keeps before it stops: the length test
      comes after the append, so a limit below one still keeps one. */
  function CnnQuota(limit: int): (n: nat)
    ensures n >= 1 && n >= limit
    ensures limit >= 1 ==> n == limit
    ensures limit < 1 ==> n == 1
  {
    if limit < 1 then 1 else limit
  }

  /** What `NewsScraper.get_cnn_news(limit)` returns for the given feed entries. */
  function CnnNews(entries: seq<FeedEntry>, fetchHtml: string -> Option<string>,
                   parse: string -> Document, limit: int): (r: seq<Article>)
    ensures r <= CnnCandidates(entries, fetchHtml, parse)
    ensures limit >= 1 ==> |r| == if limit < |CnnCandidates(entries, fetchHtml, parse)| then limit
                                  else |CnnCandidates(entries, fetchHtml, parse)|
    ensures limit < 1 ==> |r| <= 1
    ensures limit < 1 && CnnCandidates(entries, fetchHtml, parse) != [] ==> |r| == 1
  {
    var all := CnnCandidates(entries, fetchHtml, parse);
    all[..if CnnQuota(limit) < |all| then CnnQuota(limit) else |all|]
  }

  /** The body of the `get_cnn_news` loop up to the append: the three
      `continue` filters on the stripped title and link, then the page
      extraction. `None` stands for `continue`. */
  method ExtractEntry(entry: FeedEntry, fetchHtml: string -> Option<string>, parse: string -> Document)
    returns (kept: Option<Article>)
    ensures kept.None? <==> IsJunk(Strip(entry.title.GetOr("")), Strip(entry.link.GetOr("")))
    ensures kept.Some? ==> kept.value == CnnArticle(entry, fetchHtml, parse)
  {
    var title := Strip(entry.title.GetOr(""));
    var link := Strip(entry.link.GetOr(""));
    if title == "" || link == "" {
      return None;
    }
    if MentionsVideo(title) {
      return None;
    }
    if IsVideoLink(link) {
      return None;
    }
    var content := ParseCnn(link, fetchHtml, parse);
    return Some(Article(title, link, "CNN", content));
  }

  /** `NewsScraper.get_cnn_news`: the loop over the feed entries, skipping junk
      and stopping with `break` once `len(articles) >= limit`. */
  method GetCnnNews(entries: seq<FeedEntry>, fetchHtml: string -> Option<string>,
                    parse: string -> Document, limit: int) returns (articles: seq<Article>)
    ensures articles == CnnNews(entries, fetchHtml, parse, limit)
  {
    articles := [];
    for i := 0 to |entries|
      invariant articles == CnnCandidates(entries[..i], fetchHtml, parse)
      invariant |articles| < CnnQuota(limit)
    {
      var kept := ExtractEntry(entries[i], fetchHtml, parse);
      CnnCandidatesStep(entries, i, fetchHtml, parse);
      if kept.None? {
        continue;
      }
      articles := articles + [kept.value];

      if |articles| >= limit {
        assert |articles| == CnnQuota(limit);
        CnnNewsReached(entries, i + 1, fetchHtml, parse, limit);
        break;
      }
    }
    assert entries[..|entries|] == entries;
  }

  /** The title "Breaking Video: Storm Update" mentions video once lower-cased. */
  lemma StormTitleMentionsVideo()
    ensures MentionsVideo("Breaking Video: Storm Update")
  {
    var t := "Breaking Video: Storm Update";
    var lt := Lower(t);
    assert t[9] == 'V' && t[10] == 'i' && t[11] == 'd' && t[12] == 'e' && t[13] == 'o';
    assert lt[9] == 'v' && lt[10] == 'i' && lt[11] == 'd' && lt[12] == 'e' && lt[13] == 'o';
    assert lt[9..14] == "video";
    assert OccursAt(lt, "video", 9);
  }

  /** An entry titled "Breaking Video: Storm Update" is dropped whatever its link. */
  lemma VideoTitleDropped(link: Option<string>, summary: Option<string>,
                          fetchHtml: string -> Option<string>, parse: string -> Document)
    ensures CnnCandidates([FeedEntry(Some("Breaking Video: Storm Update"), link, summary)], fetchHtml, parse) == []
  {
    var t := "Breaking Video: Storm Update";
    StripTrimmed(t);
    StormTitleMentionsVideo();
    assert IsJunk(Strip(t), Strip(link.GetOr("")));
    assert [FeedEntry(Some(t), link, summary)][..0] == [];
  }

  /** An entry linking into the `/videos` section is dropped whatever its title. */
  lemma VideoLinkDropped(title: Option<string>, summary: Option<string>,
                         fetchHtml: string -> Option<string>, parse: string -> Document)
    ensures CnnCandidates([FeedEntry(title, Some("https://edition.cnn.com/videos/123"), summary)], fetchHtml, parse) == []
  {
    var l := "https://edition.cnn.com/videos/123";
    StripTrimmed(l);
    assert l[23..30] == "/videos";
    assert OccursAt(l, "/videos", 23);
    assert IsVideoLink(l);
    assert [FeedEntry(title, Some(l), summary)][..0] == [];
  }
}
