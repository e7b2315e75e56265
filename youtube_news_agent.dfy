/** The video-transcript adapter: for each channel, a forward search through
    its video feed that skips every video whose transcript cannot be fetched. */
module YoutubeNewsAgent {
  import opened Wrappers
  import opened Text
  import opened News

  /** One entry of a channel's video feed (`entry.title`, `entry.yt_videoid`, `entry.link`). */
  datatype VideoEntry = VideoEntry(title: string, videoId: string, link: string)

  /** `YoutubeNewsAgent.CHANNELS`: display name and channel id, in insertion order. */
  const Channels: seq<(string, string)> := [
    ("BBC News", "UC16niRr50-MSBwiO3YDb3RA"),
    ("CNN", "UCupvZG-5ko_eiXAupbDfxWw"),
    ("Al Jazeera English", "UCNye-wNBqNL5ZzHSJj3l8Bg")
  ]

  /** The RSS address of a channel's video feed. */
  function FeedUrl(channelId: string): string {
    "https://www.youtube.com/feeds/videos.xml?channel_id=" + channelId
  }

  /** `fetch_latest_video_id`: the newest video of the channel, if it has any.
      `feed` stands for feedparser, from feed address to entries. */
  function FetchLatestVideoId(channelId: string, feed: string -> seq<VideoEntry>): (r: Option<VideoEntry>)
    ensures r.None? <==> |feed(FeedUrl(channelId))| == 0
    ensures r.Some? ==> r.value == feed(FeedUrl(channelId))[0]
  {
    var entries := feed(FeedUrl(channelId));
    if entries == [] then None else Some(entries[0])
  }

  /** The tag every failed transcript fetch starts with. */
  const ErrorTag: string := "[Error"

  predicate IsErrorText(transcript: string) {
    StartsWith(transcript, ErrorTag)
  }

  /** `get_transcript`. `api` stands for `YouTubeTranscriptApi().fetch`: the
      snippet texts, or the message of the exception it raised. */
  function GetTranscript(videoId: string, api: string -> Result<seq<string>, string>): (t: string)
    ensures api(videoId).Err? ==> IsErrorText(t)
    ensures api(videoId).Err? ==> t == ErrorTag + " fetching transcript: " + api(videoId).error + "]"
    ensures api(videoId).Ok? ==> t == Join(api(videoId).value, " ")
  {
    match api(videoId)
    case Ok(snippets) => Join(snippets, " ")
    case Err(message) => "[Error fetching transcript: " + message + "]"
  }

  /** The dictionary `get_transcripts` emits for one video of channel `name`. */
  function SourceLabel(name: string): string {
    "YouTube - " + name
  }

  function YoutubeItem(name: string, entry: VideoEntry, transcript: string): NewsItem {
    NewsItem(Some(SourceLabel(name)), Some(entry.title), Some(entry.link), Some(transcript))
  }

  /** Every video of the feed whose transcript is not an error text, in feed order. */
  function Accepted(name: string, entries: seq<VideoEntry>, api: string -> Result<seq<string>, string>): (r: seq<NewsItem>)
    ensures |r| <= |entries|
    ensures forall item :: item in r ==>
      item.source == Some(SourceLabel(name)) && item.content.Some? && !IsErrorText(item.content.value)
    decreases |entries|
  {
    if entries == [] then []
    else
      var before := Accepted(name, entries[..|entries| - 1], api);
      var entry := entries[|entries| - 1];
      var transcript := GetTranscript(entry.videoId, api);
      if IsErrorText(transcript) then before else before + [YoutubeItem(name, entry, transcript)]
  }

  /** Every accepted record is the record of one feed entry: its title and
      link, and that entry's transcript as content. */
  lemma {:induction false} AcceptedFromFeed(name: string, entries: seq<VideoEntry>,
                                            api: string -> Result<seq<string>, string>)
    ensures forall item :: item in Accepted(name, entries, api) ==>
      exists j :: 0 <= j < |entries| && item == YoutubeItem(name, entries[j], GetTranscript(entries[j].videoId, api))
    decreases |entries|
  {
    if entries != [] {
      var n := |entries|;
      var init := entries[..n - 1];
      AcceptedFromFeed(name, init, api);
      forall item | item in Accepted(name, entries, api)
        ensures exists j :: 0 <= j < n && item == YoutubeItem(name, entries[j], GetTranscript(entries[j].videoId, api))
      {
        if item in Accepted(name, init, api) {
          var j :| 0 <= j < n - 1 && item == YoutubeItem(name, init[j], GetTranscript(init[j].videoId, api));
          assert init[j] == entries[j];
        } else {
          assert item == YoutubeItem(name, entries[n - 1], GetTranscript(entries[n - 1].videoId, api));
        }
      }
    }
  }

  /** One more entry adds its video unless its transcript is an error text. */
  lemma AcceptedStep(name: string, entries: seq<VideoEntry>, j: nat, api: string -> Result<seq<string>, string>)
    requires j < |entries|
    ensures var transcript := GetTranscript(entries[j].videoId, api);
            Accepted(name, entries[..j + 1], api)
              == Accepted(name, entries[..j], api)
                 + if IsErrorText(transcript) then [] else [YoutubeItem(name, entries[j], transcript)]
  {
    assert entries[..j + 1][..j] == entries[..j];
  }

  /** The accepted videos of a prefix of the feed are a prefix of the feed's. */
  lemma {:induction false} AcceptedPrefix(name: string, entries: seq<VideoEntry>, j: nat,
                                          api: string -> Result<seq<string>, string>)
    requires j <= |entries|
    ensures Accepted(name, entries[..j], api) <= Accepted(name, entries, api)
    decreases |entries|
  {
    if j < |entries| {
      var init := entries[..|entries| - 1];
      assert init[..j] == entries[..j];
      AcceptedPrefix(name, init, j, api);
    } else {
      assert entries[..j] == entries;
    }
  }

  /** What one channel contributes: its first `limit` accepted videos. */
  function ChannelItems(name: string, entries: seq<VideoEntry>, api: string -> Result<seq<string>, string>,
                        limit: int): (r: seq<NewsItem>)
    ensures r <= Accepted(name, entries, api)
    ensures limit <= 0 ==> r == []
    ensures limit > 0 ==> |r| == if limit < |Accepted(name, entries, api)| then limit else |Accepted(name, entries, api)|
  {
    var all := Accepted(name, entries, api);
    if limit <= 0 then [] else all[..if limit < |all| then limit else |all|]
  }

  /** The search of one channel may stop at entry `j` once `limit` videos are
      accepted, or run to the end of the feed with fewer: either way what it
      has accepted is the channel's contribution. */
  lemma ChannelItemsReached(name: string, entries: seq<VideoEntry>, api: string -> Result<seq<string>, string>,
                            limit: int, j: nat)
    requires j <= |entries|
    requires |Accepted(name, entries[..j], api)| <= limit || Accepted(name, entries[..j], api) == []
    requires j == |entries| || |Accepted(name, entries[..j], api)| >= limit
    ensures ChannelItems(name, entries, api, limit) == Accepted(name, entries[..j], api)
  {
    AcceptedPrefix(name, entries, j, api);
    if j == |entries| {
      assert entries[..j] == entries;
    }
  }

  /** With room for one video, the first video whose transcript works is the
      one taken, after any number of failures before it. */
  lemma {:induction false} TranscriptFallback(name: string, entries: seq<VideoEntry>,
                                              api: string -> Result<seq<string>, string>, k: nat)
    requires k < |entries|
    requires forall j :: 0 <= j < k ==> IsErrorText(GetTranscript(entries[j].videoId, api))
    requires !IsErrorText(GetTranscript(entries[k].videoId, api))
    ensures ChannelItems(name, entries, api, 1)
         == [YoutubeItem(name, entries[k], GetTranscript(entries[k].videoId, api))]
  {
    NoneAccepted(name, entries[..k], api);
    assert entries[..k + 1][..k] == entries[..k];
    AcceptedPrefix(name, entries, k + 1, api);
  }

  /** A feed whose every transcript fails yields nothing. */
  lemma {:induction false} NoneAccepted(name: string, entries: seq<VideoEntry>,
                                        api: string -> Result<seq<string>, string>)
    requires forall j :: 0 <= j < |entries| ==> IsErrorText(GetTranscript(entries[j].videoId, api))
    ensures Accepted(name, entries, api) == []
    decreases |entries|
  {
    if entries != [] {
      NoneAccepted(name, entries[..|entries| - 1], api);
    }
  }

  /** The records of the given channels, channel after channel. */
  function TranscriptsOf(channels: seq<(string, string)>, feed: string -> seq<VideoEntry>,
                         api: string -> Result<seq<string>, string>, limit: int): (r: seq<NewsItem>)
    ensures limit <= 0 ==> r == []
    decreases |channels|
  {
    if channels == [] then []
    else
      var last := channels[|channels| - 1];
      TranscriptsOf(channels[..|channels| - 1], feed, api, limit)
        + ChannelItems(last.0, feed(FeedUrl(last.1)), api, limit)
  }

  /** No channel contributes more than `limit` records. */
  lemma {:induction false} TranscriptsOfBound(channels: seq<(string, string)>, feed: string -> seq<VideoEntry>,
                                              api: string -> Result<seq<string>, string>, limit: int)
    ensures limit > 0 ==> |TranscriptsOf(channels, feed, api, limit)| <= |channels| * limit
    decreases |channels|
  {
    if channels != [] && limit > 0 {
      var n := |channels|;
      var last := channels[n - 1];
      TranscriptsOfBound(channels[..n - 1], feed, api, limit);
      assert |ChannelItems(last.0, feed(FeedUrl(last.1)), api, limit)| <= limit;
      MulStep(n, limit);
    }
  }

  lemma MulStep(n: int, l: int)
    ensures (n - 1) * l + l == n * l
  {
  }

  /** One more channel adds that channel's contribution. */
  lemma TranscriptsOfStep(channels: seq<(string, string)>, c: nat, feed: string -> seq<VideoEntry>,
                          api: string -> Result<seq<string>, string>, limit: int)
    requires c < |channels|
    ensures TranscriptsOf(channels[..c + 1], feed, api, limit)
         == TranscriptsOf(channels[..c], feed, api, limit)
            + ChannelItems(channels[c].0, feed(FeedUrl(channels[c].1)), api, limit)
  {
    assert channels[..c + 1][..c] == channels[..c];
  }

  /** What `YoutubeNewsAgent.get_transcripts(limit_per_channel)` returns. */
  function Transcripts(feed: string -> seq<VideoEntry>, api: string -> Result<seq<string>, string>,
                       limitPerChannel: int): (r: seq<NewsItem>)
    ensures limitPerChannel > 0 ==> |r| <= |Channels| * limitPerChannel
  {
    TranscriptsOfBound(Channels, feed, api, limitPerChannel);
    TranscriptsOf(Channels, feed, api, limitPerChannel)
  }

  /** Concatenation regroups freely; kept as a lemma so that the regrouping
      is the only fact it adds to a proof. */
  lemma ConcatAssoc<T>(x: seq<T>, y: seq<T>, z: seq<T>)
    ensures (x + y) + z == x + (y + z)
  {
  }

  /** Appending one channel appends that channel's contribution. */
  lemma TranscriptsOfSnoc(channels: seq<(string, string)>, last: (string, string),
                          feed: string -> seq<VideoEntry>, api: string -> Result<seq<string>, string>, limit: int)
    ensures TranscriptsOf(channels + [last], feed, api, limit)
         == TranscriptsOf(channels, feed, api, limit) + ChannelItems(last.0, feed(FeedUrl(last.1)), api, limit)
  {
    assert (channels + [last])[..|channels|] == channels;
  }

  /** Channel order is kept: the records of a list of channels are those of
      its first part followed by those of the rest. */
  lemma {:induction false} TranscriptsOfAppend(first: seq<(string, string)>, rest: seq<(string, string)>,
                                               feed: string -> seq<VideoEntry>,
                                               api: string -> Result<seq<string>, string>, limit: int)
    ensures TranscriptsOf(first + rest, feed, api, limit)
         == TranscriptsOf(first, feed, api, limit) + TranscriptsOf(rest, feed, api, limit)
    decreases |rest|
  {
    if rest == [] {
      assert first + rest == first;
    } else {
      var init := rest[..|rest| - 1];
      var last := rest[|rest| - 1];
      assert rest == init + [last];
      assert first + rest == (first + init) + [last];
      TranscriptsOfAppend(first, init, feed, api, limit);
      TranscriptsOfSnoc(first + init, last, feed, api, limit);
      TranscriptsOfSnoc(init, last, feed, api, limit);
      ConcatAssoc(TranscriptsOf(first, feed, api, limit), TranscriptsOf(init, feed, api, limit),
                  ChannelItems(last.0, feed(FeedUrl(last.1)), api, limit));
    }
  }

  /** Every record comes from one of the channels, carries that channel's
      source name and a transcript that is not an error text. */
  lemma {:induction false} TranscriptsSourced(channels: seq<(string, string)>, feed: string -> seq<VideoEntry>,
                                              api: string -> Result<seq<string>, string>, limit: int)
    ensures forall item :: item in TranscriptsOf(channels, feed, api, limit) ==>
              && (exists c :: 0 <= c < |channels| && item.source == Some(SourceLabel(channels[c].0)))
              && item.content.Some? && !IsErrorText(item.content.value)
    decreases |channels|
  {
    if channels != [] {
      var n := |channels|;
      var init := channels[..n - 1];
      var last := channels[n - 1];
      TranscriptsSourced(init, feed, api, limit);
      var own := ChannelItems(last.0, feed(FeedUrl(last.1)), api, limit);
      forall item | item in TranscriptsOf(channels, feed, api, limit)
        ensures exists c :: 0 <= c < n && item.source == Some(SourceLabel(channels[c].0))
        ensures item.content.Some? && !IsErrorText(item.content.value)
      {
        if item in TranscriptsOf(init, feed, api, limit) {
          var c :| 0 <= c < n - 1 && item.source == Some(SourceLabel(init[c].0));
          assert init[c] == channels[c];
        } else {
          assert item in own;
          assert item in Accepted(last.0, feed(FeedUrl(last.1)), api);
        }
      }
    }
  }

  /** The search loop of `get_transcripts` for one channel: walk the feed,
      stop as soon as `found_count` reaches the limit, keep each video whose
      transcript is not an error text. */
  method SearchChannel(name: string, entries: seq<VideoEntry>, api: string -> Result<seq<string>, string>,
                       limitPerChannel: int) returns (items: seq<NewsItem>)
    ensures items == ChannelItems(name, entries, api, limitPerChannel)
  {
    items := [];
    var found := 0;
    var j := 0;
    while j < |entries|
      invariant j <= |entries|
      invariant found == |items|
      invariant found <= limitPerChannel || found == 0
      invariant items == Accepted(name, entries[..j], api)
    {
      if found >= limitPerChannel {
        break;
      }
      var entry := entries[j];
      var transcript := GetTranscript(entry.videoId, api);
      AcceptedStep(name, entries, j, api);
      if !IsErrorText(transcript) {
        items := items + [YoutubeItem(name, entry, transcript)];
        found := found + 1;
      }
      j := j + 1;
    }
    ChannelItemsReached(name, entries, api, limitPerChannel, j);
  }

  /** `YoutubeNewsAgent.get_transcripts`: the loop over the channel table
      (`CHANNELS`, passed in as `channels`), skipping a channel with an empty
      feed and searching each of the others. */
  method GetTranscripts(channels: seq<(string, string)>, feed: string -> seq<VideoEntry>,
                        api: string -> Result<seq<string>, string>, limitPerChannel: int)
    returns (results: seq<NewsItem>)
    ensures results == TranscriptsOf(channels, feed, api, limitPerChannel)
  {
    results := [];
    for c := 0 to |channels|
      invariant results == TranscriptsOf(channels[..c], feed, api, limitPerChannel)
    {
      var (name, channelId) := channels[c];
      TranscriptsOfStep(channels, c, feed, api, limitPerChannel);
      var entries := feed(FeedUrl(channelId));
      if entries == [] {
        continue;
      }
      var found := SearchChannel(name, entries, api, limitPerChannel);
      results := results + found;
    }
    assert channels[..|channels|] == channels;
  }
}
