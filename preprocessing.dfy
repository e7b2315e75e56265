/** The aggregator and the normaliser: the three adapters' outputs are put in
    one list (BBC, then CNN, then YouTube), which a single pass then trims,
    deduplicates by title and truncates. */
module Preprocessing {
  import opened Wrappers
  import opened Text
  import opened News
  import Html
  import BbcNewsAgent
  import CnnNewsAgent
  import YoutubeNewsAgent

  /** One dictionary of `preprocess_data`'s output: the keys source, title and
      content and no others (the url is dropped). */
  datatype Record = Record(source: string, title: string, content: string)

  /** The exception that aborts `preprocess_data`: `item["source"]` on a
      dictionary without that key. */
  datatype Failure = KeyError(key: string)

  /** Content longer than this is cut back to it and marked. */
  const MaxContent: nat := 3000

  /** The mark appended to cut content. */
  const Ellipsis: string := "..."

  /** The title the duplicate test compares: the stripped title, "" when missing. */
  function TitleOf(item: NewsItem): string {
    Strip(item.title.GetOr(""))
  }

  /** The content after step 1: stripped when present and not empty, else "". */
  function ContentOf(item: NewsItem): (c: string)
    ensures Trimmed(c)
    ensures item.content.None? || item.content == Some("") ==> c == ""
    ensures item.content.Some? && item.content.value != "" ==> c == Strip(item.content.value)
  {
    if item.content.Some? && item.content.value != "" then Strip(item.content.value) else ""
  }

  /** Step 3: content over `MaxContent` characters keeps its first `MaxContent`
      characters and gets the mark. */
  function Truncate(s: string): (r: string)
    ensures |r| <= MaxContent + |Ellipsis|
    ensures |s| <= MaxContent ==> r == s
    ensures |s| > MaxContent ==>
              |r| == MaxContent + |Ellipsis| && r[..MaxContent] == s[..MaxContent] && r[MaxContent..] == Ellipsis
  {
    if |s| > MaxContent then s[..MaxContent] + Ellipsis else s
  }

  /** Cutting twice is cutting once. */
  lemma TruncateIdempotent(s: string)
    ensures Truncate(Truncate(s)) == Truncate(s)
  {
    var r := Truncate(s);
    if |s| > MaxContent {
      assert r[..MaxContent] + Ellipsis == r;
    }
  }

  /** Cutting trimmed content leaves it trimmed: the mark ends in '.'. */
  lemma TruncateTrimmed(s: string)
    requires Trimmed(s)
    ensures Trimmed(Truncate(s))
  {
    if |s| > MaxContent {
      var r := Truncate(s);
      assert r[0] == s[0];
      assert r[|r| - 1] == Ellipsis[2] == '.';
    }
  }

  /** The output dictionary built for an item that is kept. */
  function Clean(item: NewsItem): (r: Record)
    requires item.source.Some?
    ensures r.source == item.source.value
    ensures r.title == TitleOf(item) && r.content == Truncate(ContentOf(item))
    ensures Trimmed(r.title) && Trimmed(r.content)
    ensures |r.content| <= MaxContent + |Ellipsis|
  {
    TruncateTrimmed(ContentOf(item));
    Record(item.source.value, TitleOf(item), Truncate(ContentOf(item)))
  }

  /** The `seen_titles` set once `items` have been looked at. */
  function TitlesOf(items: seq<NewsItem>): (r: set<string>)
    ensures |r| <= |items|
    decreases |items|
  {
    if items == [] then {} else TitlesOf(items[..|items| - 1]) + {TitleOf(items[|items| - 1])}
  }

  /** Looking at one more item adds its title to the seen set. */
  lemma TitlesOfStep(items: seq<NewsItem>, i: nat)
    requires i < |items|
    ensures TitlesOf(items[..i + 1]) == TitlesOf(items[..i]) + {TitleOf(items[i])}
  {
    assert items[..i + 1][..i] == items[..i];
  }

  /** Every title looked at is in the seen set. */
  lemma {:induction false} TitlesOfHas(items: seq<NewsItem>, k: nat)
    requires k < |items|
    ensures TitleOf(items[k]) in TitlesOf(items)
    decreases |items|
  {
    if k < |items| - 1 {
      var init := items[..|items| - 1];
      assert init[k] == items[k];
      TitlesOfHas(init, k);
    }
  }

  /** Every title in the seen set is the title of some item looked at. */
  lemma {:induction false} TitlesOfWitness(items: seq<NewsItem>, t: string) returns (k: nat)
    requires t in TitlesOf(items)
    ensures k < |items| && TitleOf(items[k]) == t
    decreases |items|
  {
    var n := |items|;
    if t == TitleOf(items[n - 1]) {
      k := n - 1;
    } else {
      var init := items[..n - 1];
      k := TitlesOfWitness(init, t);
      assert init[k] == items[k];
    }
  }

  /** A title no item carries is not in the seen set. */
  lemma {:induction false} TitlesOfExcludes(items: seq<NewsItem>, t: string)
    requires forall j :: 0 <= j < |items| ==> TitleOf(items[j]) != t
    ensures t !in TitlesOf(items)
    decreases |items|
  {
    if items != [] {
      var init := items[..|items| - 1];
      assert forall j :: 0 <= j < |init| ==> init[j] == items[j];
      TitlesOfExcludes(init, t);
    }
  }

  /** `items[i]` is the first item with its title: the title is not yet in
      the seen set when the pass reaches it. */
  predicate IsFirst(items: seq<NewsItem>, i: int) {
    0 <= i < |items| && TitleOf(items[i]) !in TitlesOf(items[..i])
  }

  /** What `preprocess_data(items)` returns, or the `KeyError` it raises. */
  function Normalize(items: seq<NewsItem>): (r: Result<seq<Record>, Failure>)
    ensures r.Ok? ==> |r.value| <= |items|
    ensures r.Err? ==> r.error == KeyError("source")
    decreases |items|
  {
    if items == [] then Ok([])
    else
      var init := items[..|items| - 1];
      var item := items[|items| - 1];
      var before := Normalize(init);
      if before.Err? || TitleOf(item) in TitlesOf(init) then before
      else if item.source.None? then Err(KeyError("source"))
      else Ok(before.value + [Clean(item)])
  }

  /** One more item: dropped when its title was seen, a `KeyError` when it is
      new but has no source, appended cleaned otherwise. */
  lemma NormalizeStep(items: seq<NewsItem>, i: nat)
    requires i < |items|
    ensures var before := Normalize(items[..i]);
            Normalize(items[..i + 1])
              == if before.Err? || TitleOf(items[i]) in TitlesOf(items[..i]) then before
                 else if items[i].source.None? then Err(KeyError("source"))
                 else Ok(before.value + [Clean(items[i])])
  {
    assert items[..i + 1][..i] == items[..i];
  }

  /** Once the pass has raised, the rest of the list does not matter. */
  lemma {:induction false} NormalizeErrPersists(items: seq<NewsItem>, j: nat)
    requires j <= |items|
    requires Normalize(items[..j]).Err?
    ensures Normalize(items).Err?
    decreases |items|
  {
    if j < |items| {
      var init := items[..|items| - 1];
      assert init[..j] == items[..j];
      NormalizeErrPersists(init, j);
    } else {
      assert items[..j] == items;
    }
  }

  /** Every item has a first item with the same title, at or before it. */
  lemma FirstOf(items: seq<NewsItem>, i: nat) returns (f: nat)
    requires i < |items|
    ensures f <= i && IsFirst(items, f) && TitleOf(items[f]) == TitleOf(items[i])
    decreases i
  {
    if IsFirst(items, i) {
      f := i;
    } else {
      var j := TitlesOfWitness(items[..i], TitleOf(items[i]));
      assert items[..i][j] == items[j];
      f := FirstOf(items, j);
    }
  }

  /** Being first in a prefix is being first in the whole list. */
  lemma IsFirstPrefix(items: seq<NewsItem>, n: nat, i: int)
    requires n <= |items|
    requires 0 <= i < n
    ensures IsFirst(items[..n], i) <==> IsFirst(items, i)
  {
    assert items[..n][..i] == items[..i];
  }

  /** The facts `NormalizeFirstOccurrences` states, for one index list. */
  predicate FirstOccurrences(items: seq<NewsItem>, idx: seq<nat>, out: seq<Record>) {
    && |idx| == |out|
    && (forall a, b :: 0 <= a < b < |idx| ==> idx[a] < idx[b])
    && (forall k :: 0 <= k < |idx| ==>
          IsFirst(items, idx[k]) && items[idx[k]].source.Some? && out[k] == Clean(items[idx[k]]))
    && (forall i :: 0 <= i < |items| && IsFirst(items, i) ==> i in idx)
  }

  /** A duplicate last item leaves the output and its index list as they were. */
  lemma FirstOccurrencesKept(items: seq<NewsItem>, idx: seq<nat>, out: seq<Record>)
    requires |items| > 0
    requires FirstOccurrences(items[..|items| - 1], idx, out)
    requires !IsFirst(items, |items| - 1)
    requires forall i :: 0 <= i < |items| - 1 ==> (IsFirst(items[..|items| - 1], i) <==> IsFirst(items, i))
    ensures FirstOccurrences(items, idx, out)
  {
    var init := items[..|items| - 1];
    forall k | 0 <= k < |idx|
      ensures IsFirst(items, idx[k]) && items[idx[k]].source.Some? && out[k] == Clean(items[idx[k]])
    {
      assert IsFirst(init, idx[k]);
      assert init[idx[k]] == items[idx[k]];
    }
  }

  /** Appending an index beyond every listed one keeps the list increasing. */
  lemma IncreasingExtended(idx: seq<nat>, n: nat)
    requires forall a, b :: 0 <= a < b < |idx| ==> idx[a] < idx[b]
    requires forall k :: 0 <= k < |idx| ==> idx[k] < n
    ensures forall a, b :: 0 <= a < b < |idx + [n]| ==> (idx + [n])[a] < (idx + [n])[b]
  {
    var idx2 := idx + [n];
    forall a, b | 0 <= a < b < |idx2|
      ensures idx2[a] < idx2[b]
    {
      if b < |idx| {
        assert idx2[a] == idx[a] && idx2[b] == idx[b];
      } else {
        assert idx2[a] == idx[a];
      }
    }
  }

  /** The records listed for the items before the last stay listed for the whole list. */
  lemma FirstRecordsKept(items: seq<NewsItem>, idx: seq<nat>, out: seq<Record>, rec: Record)
    requires |items| > 0
    requires FirstOccurrences(items[..|items| - 1], idx, out)
    requires forall i :: 0 <= i < |items| - 1 ==> (IsFirst(items[..|items| - 1], i) <==> IsFirst(items, i))
    ensures forall k :: 0 <= k < |idx| ==>
              IsFirst(items, idx[k]) && items[idx[k]].source.Some? && (out + [rec])[k] == Clean(items[idx[k]])
  {
    var init := items[..|items| - 1];
    forall k | 0 <= k < |idx|
      ensures IsFirst(items, idx[k]) && items[idx[k]].source.Some? && (out + [rec])[k] == Clean(items[idx[k]])
    {
      assert IsFirst(init, idx[k]);
      assert init[idx[k]] == items[idx[k]];
      assert (out + [rec])[k] == out[k];
    }
  }

  /** A new last item with a source adds itself to the index list and its
      cleaned record to the output. */
  lemma FirstOccurrencesExtended(items: seq<NewsItem>, idx: seq<nat>, out: seq<Record>)
    requires |items| > 0
    requires |out| > 0 && IsFirst(items, |items| - 1) && items[|items| - 1].source.Some?
    requires FirstOccurrences(items[..|items| - 1], idx, out[..|out| - 1])
    requires out[|out| - 1] == Clean(items[|items| - 1])
    requires forall i :: 0 <= i < |items| - 1 ==> (IsFirst(items[..|items| - 1], i) <==> IsFirst(items, i))
    ensures FirstOccurrences(items, idx + [|items| - 1], out)
  {
    var init := items[..|items| - 1];
    var idx2 := idx + [|items| - 1];
    assert out == out[..|out| - 1] + [out[|out| - 1]];
    FirstRecordsKept(items, idx, out[..|out| - 1], out[|out| - 1]);
    IncreasingExtended(idx, |items| - 1);
    forall i | IsFirst(items, i)
      ensures i in idx2
    {
      if i < |items| - 1 {
        assert IsFirst(init, i);
      }
    }
  }

  /** The output is the cleaned image of exactly the items that are first
      with their title, in input order. */
  lemma {:induction false} NormalizeFirstOccurrences(items: seq<NewsItem>) returns (idx: seq<nat>)
    requires Normalize(items).Ok?
    ensures FirstOccurrences(items, idx, Normalize(items).value)
    decreases |items|
  {
    if items == [] {
      idx := [];
    } else {
      var n := |items|;
      var init := items[..n - 1];
      var before := NormalizeFirstOccurrences(init);
      var out := Normalize(items).value;
      forall i | 0 <= i < n - 1
        ensures IsFirst(init, i) <==> IsFirst(items, i)
      {
        IsFirstPrefix(items, n - 1, i);
      }
      if IsFirst(items, n - 1) {
        assert out[..|out| - 1] == Normalize(init).value;
        idx := before + [n - 1];
        FirstOccurrencesExtended(items, before, out);
      } else {
        idx := before;
        FirstOccurrencesKept(items, before, out);
      }
    }
  }

  /** No two output records share a title. */
  lemma NormalizeDistinct(items: seq<NewsItem>)
    requires Normalize(items).Ok?
    ensures var out := Normalize(items).value;
            forall a, b :: 0 <= a < b < |out| ==> out[a].title != out[b].title
  {
    var out := Normalize(items).value;
    var idx := NormalizeFirstOccurrences(items);
    forall a, b | 0 <= a < b < |out|
      ensures out[a].title != out[b].title
    {
      var first, later := idx[a], idx[b];
      assert IsFirst(items, later);
      assert items[..later][first] == items[first];
      TitlesOfHas(items[..later], first);
    }
  }

  /** Every input title is in the output, carried by the record built from
      the first item with that title: the first occurrence wins. */
  lemma NormalizeFirstWins(items: seq<NewsItem>, i: nat) returns (k: nat, f: nat)
    requires i < |items|
    requires Normalize(items).Ok?
    ensures f <= i && IsFirst(items, f) && TitleOf(items[f]) == TitleOf(items[i])
    ensures k < |Normalize(items).value|
    ensures items[f].source.Some? && Normalize(items).value[k] == Clean(items[f])
    ensures Normalize(items).value[k].title == TitleOf(items[i])
  {
    var idx := NormalizeFirstOccurrences(items);
    f := FirstOf(items, i);
    assert f in idx;
    var kk :| 0 <= kk < |idx| && idx[kk] == f;
    k := kk;
  }

  /** Some item that is first with its title has no source. */
  predicate HasUnsourcedFirst(items: seq<NewsItem>) {
    exists i :: 0 <= i < |items| && IsFirst(items, i) && items[i].source.None?
  }

  /** An unsourced first item of the whole list is one of the earlier
      items or the new last one. */
  lemma HasUnsourcedFirstSplit(items: seq<NewsItem>)
    requires items != []
    requires HasUnsourcedFirst(items)
    ensures HasUnsourcedFirst(items[..|items| - 1])
            || (IsFirst(items, |items| - 1) && items[|items| - 1].source.None?)
  {
    var n := |items|;
    var i :| 0 <= i < n && IsFirst(items, i) && items[i].source.None?;
    if i < n - 1 {
      var init := items[..n - 1];
      IsFirstPrefix(items, n - 1, i);
      assert init[i] == items[i];
      assert IsFirst(init, i) && init[i].source.None?;
    }
  }

  /** An unsourced first item of a prefix is one of the whole list. */
  lemma HasUnsourcedFirstWiden(items: seq<NewsItem>)
    requires items != []
    requires HasUnsourcedFirst(items[..|items| - 1])
    ensures HasUnsourcedFirst(items)
  {
    var init := items[..|items| - 1];
    var i :| 0 <= i < |init| && IsFirst(init, i) && init[i].source.None?;
    IsFirstPrefix(items, |items| - 1, i);
    assert init[i] == items[i];
    assert IsFirst(items, i) && items[i].source.None?;
  }

  /** Looking at one more item: an unsourced first item is one of the
      earlier items or the new one. */
  lemma HasUnsourcedFirstStep(items: seq<NewsItem>)
    requires items != []
    ensures HasUnsourcedFirst(items)
        <==> HasUnsourcedFirst(items[..|items| - 1])
             || (IsFirst(items, |items| - 1) && items[|items| - 1].source.None?)
  {
    if HasUnsourcedFirst(items) {
      HasUnsourcedFirstSplit(items);
    }
    if HasUnsourcedFirst(items[..|items| - 1]) {
      HasUnsourcedFirstWiden(items);
    }
  }

  /** The pass raises exactly when some item that is first with its title
      has no source (a duplicate without a source is dropped before the
      lookup). */
  lemma {:induction false} NormalizeErrorIff(items: seq<NewsItem>)
    ensures Normalize(items).Err? <==> HasUnsourcedFirst(items)
    decreases |items|
  {
    if items != [] {
      NormalizeErrorIff(items[..|items| - 1]);
      HasUnsourcedFirstStep(items);
    }
  }

  /** A list whose every item has a source is always normalised. */
  lemma NormalizeTotal(items: seq<NewsItem>)
    requires forall k :: 0 <= k < |items| ==> items[k].source.Some?
    ensures Normalize(items).Ok?
  {
    NormalizeErrorIff(items);
  }

  /** Three items titled "A", "A" and "B": the second "A" is dropped, the
      over-long content of the first is cut, and the rest passes unchanged. */
  lemma DuplicateAndTruncateExample(source: string, long: string, y: string, z: string)
    requires |long| > MaxContent && Trimmed(long)
    requires |z| <= MaxContent && Trimmed(z)
    ensures Normalize([NewsItem(Some(source), Some("A"), None, Some(long)),
                       NewsItem(Some(source), Some("A"), None, Some(y)),
                       NewsItem(Some(source), Some("B"), None, Some(z))])
         == Ok([Record(source, "A", long[..MaxContent] + Ellipsis), Record(source, "B", z)])
  {
    var items := [NewsItem(Some(source), Some("A"), None, Some(long)),
                  NewsItem(Some(source), Some("A"), None, Some(y)),
                  NewsItem(Some(source), Some("B"), None, Some(z))];
    var first := Record(source, "A", long[..MaxContent] + Ellipsis);
    StripTrimmed("A");
    StripTrimmed("B");
    StripTrimmed(long);
    StripTrimmed(z);
    assert items[..0] == [];
    assert Normalize(items[..0]) == Ok([]);
    assert TitlesOf(items[..0]) == {};
    NormalizeStep(items, 0);
    assert Clean(items[0]) == first;
    assert TitleOf(items[0]) !in TitlesOf(items[..0]);
    assert [] + [first] == [first];
    assert Normalize(items[..1]) == Ok([first]);
    TitlesOfStep(items, 0);
    NormalizeStep(items, 1);
    assert Normalize(items[..2]) == Ok([first]);
    TitlesOfStep(items, 1);
    assert TitlesOf(items[..2]) == {"A"};
    NormalizeStep(items, 2);
    assert Clean(items[2]) == Record(source, "B", z);
    assert "B"[0] != "A"[0];
    assert TitleOf(items[2]) !in TitlesOf(items[..2]);
    assert [first] + [Record(source, "B", z)] == [first, Record(source, "B", z)];
    assert Normalize(items[..3]) == Ok([first, Record(source, "B", z)]);
    assert items[..3] == items;
  }

  /** A record read back as an input dictionary. */
  function AsItem(r: Record): NewsItem {
    NewsItem(Some(r.source), Some(r.title), None, Some(r.content))
  }

  function AsItems(records: seq<Record>): seq<NewsItem> {
    seq(|records|, k requires 0 <= k < |records| => AsItem(records[k]))
  }

  /** Cleaning a cleaned record again changes nothing. */
  lemma CleanIsFixed(item: NewsItem)
    requires item.source.Some?
    ensures Clean(AsItem(Clean(item))) == Clean(item)
  {
    var r := Clean(item);
    StripTrimmed(r.title);
    StripTrimmed(r.content);
    TruncateTrimmed(ContentOf(item));
    TruncateIdempotent(ContentOf(item));
  }

  /** Records with distinct titles, each already clean, pass through the
      normaliser unchanged. */
  lemma {:induction false} NormalizeFixpoint(records: seq<Record>)
    requires forall k :: 0 <= k < |records| ==> Clean(AsItem(records[k])) == records[k]
    requires forall a, b :: 0 <= a < b < |records| ==> records[a].title != records[b].title
    ensures Normalize(AsItems(records)) == Ok(records)
    decreases |records|
  {
    if records != [] {
      var n := |records|;
      var items := AsItems(records);
      var init := records[..n - 1];
      var last := records[n - 1];
      assert records == init + [last];
      assert items[..n - 1] == AsItems(init);
      NormalizeFixpoint(init);
      assert Clean(AsItem(last)) == last;
      forall j | 0 <= j < n - 1
        ensures TitleOf(AsItems(init)[j]) != TitleOf(AsItem(last))
      {
        assert Clean(AsItem(records[j])) == records[j];
        assert AsItems(init)[j] == AsItem(records[j]);
      }
      TitlesOfExcludes(AsItems(init), TitleOf(AsItem(last)));
    }
  }

  /** Normalising the output again returns it unchanged. */
  lemma NormalizeIdempotent(items: seq<NewsItem>)
    requires Normalize(items).Ok?
    ensures Normalize(AsItems(Normalize(items).value)) == Normalize(items)
  {
    var out := Normalize(items).value;
    var idx := NormalizeFirstOccurrences(items);
    forall k | 0 <= k < |out|
      ensures Clean(AsItem(out[k])) == out[k]
    {
      CleanIsFixed(items[idx[k]]);
    }
    NormalizeDistinct(items);
    NormalizeFixpoint(out);
  }

  /** `preprocess_data`: one pass with the `seen_titles` set. */
  method PreprocessData(data: seq<NewsItem>) returns (r: Result<seq<Record>, Failure>)
    ensures r == Normalize(data)
  {
    var seenTitles: set<string> := {};
    var cleaned: seq<Record> := [];
    for i := 0 to |data|
      invariant seenTitles == TitlesOf(data[..i])
      invariant Normalize(data[..i]) == Ok(cleaned)
    {
      var item := data[i];
      var title := Strip(item.title.GetOr(""));
      var content := if item.content.Some? && item.content.value != "" then Strip(item.content.value) else "";
      NormalizeStep(data, i);
      TitlesOfStep(data, i);

      if title in seenTitles {
        continue;
      }
      seenTitles := seenTitles + {title};

      if |content| > MaxContent {
        content := content[..MaxContent] + Ellipsis;
      }

      if item.source.None? {
        NormalizeErrPersists(data, i + 1);
        return Err(KeyError("source"));
      }
      cleaned := cleaned + [Record(item.source.value, title, content)];
    }
    assert data[..|data|] == data;
    return Ok(cleaned);
  }

  /** The BBC or CNN articles as dictionaries under the given source name. */
  function Relabel(articles: seq<Article>, source: string): (r: seq<NewsItem>)
    ensures |r| == |articles|
    ensures forall item :: item in r ==> item.source == Some(source)
  {
    seq(|articles|, k requires 0 <= k < |articles| =>
      NewsItem(Some(source), Some(articles[k].title), Some(articles[k].url), Some(articles[k].content)))
  }

  /** `unified_data` before the normaliser runs. */
  function Unified(bbc: seq<Article>, cnn: seq<Article>, youtube: seq<NewsItem>): (r: seq<NewsItem>)
    ensures |r| == |bbc| + |cnn| + |youtube|
    ensures r[|bbc| + |cnn|..] == youtube
  {
    Relabel(bbc, "BBC") + Relabel(cnn, "CNN") + youtube
  }

  /** The unified list is the BBC articles, then the CNN articles, then the
      YouTube items, each group in the order it was fetched. */
  lemma UnifiedLayout(bbc: seq<Article>, cnn: seq<Article>, youtube: seq<NewsItem>)
    ensures var u := Unified(bbc, cnn, youtube);
      && |u| == |bbc| + |cnn| + |youtube|
      && (forall k :: 0 <= k < |bbc| ==>
            u[k].source == Some("BBC") && u[k].title == Some(bbc[k].title)
            && u[k].url == Some(bbc[k].url) && u[k].content == Some(bbc[k].content))
      && (forall k :: 0 <= k < |cnn| ==>
            u[|bbc| + k].source == Some("CNN") && u[|bbc| + k].title == Some(cnn[k].title)
            && u[|bbc| + k].url == Some(cnn[k].url) && u[|bbc| + k].content == Some(cnn[k].content))
      && u[|bbc| + |cnn|..] == youtube
  {
  }

  /** With every YouTube item sourced, the unified list never raises. */
  lemma UnifiedNormalizes(bbc: seq<Article>, cnn: seq<Article>, youtube: seq<NewsItem>)
    requires forall k :: 0 <= k < |youtube| ==> youtube[k].source.Some?
    ensures Normalize(Unified(bbc, cnn, youtube)).Ok?
  {
    var u := Unified(bbc, cnn, youtube);
    forall k | 0 <= k < |u|
      ensures u[k].source.Some?
    {
      if k >= |bbc| + |cnn| {
        assert u[k] == youtube[k - |bbc| - |cnn|];
      }
    }
    NormalizeTotal(u);
  }

  /** A title BBC reported is kept with source "BBC", even when CNN or YouTube
      reported it too: the earlier feed wins a tie. */
  lemma BbcWinsTies(bbc: seq<Article>, cnn: seq<Article>, youtube: seq<NewsItem>, a: nat) returns (k: nat)
    requires a < |bbc|
    requires Normalize(Unified(bbc, cnn, youtube)).Ok?
    ensures var out := Normalize(Unified(bbc, cnn, youtube)).value;
            k < |out| && out[k].title == Strip(bbc[a].title) && out[k].source == "BBC"
  {
    var u := Unified(bbc, cnn, youtube);
    var f;
    k, f := NormalizeFirstWins(u, a);
    assert u[f] == Relabel(bbc, "BBC")[f];
  }

  /** What `fetch_and_process_data` returns for the given feeds. */
  function Processed(bbcEntries: seq<FeedEntry>, cnnEntries: seq<FeedEntry>,
                     fetchHtml: string -> Option<string>, parse: string -> Html.Document,
                     feed: string -> seq<YoutubeNewsAgent.VideoEntry>,
                     api: string -> Result<seq<string>, string>): (r: Result<seq<Record>, Failure>)
    ensures r.Ok?
    ensures |r.value| <= 3 + 3 + |YoutubeNewsAgent.Channels|
  {
    var bbc := BbcNewsAgent.BbcNews(bbcEntries, 3);
    var cnn := CnnNewsAgent.CnnNews(cnnEntries, fetchHtml, parse, 3);
    var youtube := YoutubeNewsAgent.Transcripts(feed, api, 1);
    YoutubeNewsAgent.TranscriptsSourced(YoutubeNewsAgent.Channels, feed, api, 1);
    UnifiedNormalizes(bbc, cnn, youtube);
    Normalize(Unified(bbc, cnn, youtube))
  }

  /** One of the two relabelling loops of `fetch_and_process_data`: each
      article appended to `unified_data` as a dictionary under `source`. */
  method AppendArticles(unified: seq<NewsItem>, articles: seq<Article>, source: string)
    returns (extended: seq<NewsItem>)
    ensures extended == unified + Relabel(articles, source)
  {
    extended := unified;
    for i := 0 to |articles|
      invariant extended == unified + Relabel(articles[..i], source)
    {
      var art := articles[i];
      extended := extended + [NewsItem(Some(source), Some(art.title), Some(art.url), Some(art.content))];
    }
    assert articles[..|articles|] == articles;
  }

  /** `fetch_and_process_data`: three BBC articles, three CNN articles and one
      transcript per channel, relabelled, concatenated and normalised. */
  method FetchAndProcessData(bbcEntries: seq<FeedEntry>, cnnEntries: seq<FeedEntry>,
                             fetchHtml: string -> Option<string>, parse: string -> Html.Document,
                             feed: string -> seq<YoutubeNewsAgent.VideoEntry>,
                             api: string -> Result<seq<string>, string>)
    returns (processed: seq<Record>)
    ensures Processed(bbcEntries, cnnEntries, fetchHtml, parse, feed, api) == Ok(processed)
  {
    var bbcArticles := BbcNewsAgent.GetBbcNews(bbcEntries, 3);
    var unified := AppendArticles([], bbcArticles, "BBC");
    assert unified == Relabel(bbcArticles, "BBC");

    var cnnArticles := CnnNewsAgent.GetCnnNews(cnnEntries, fetchHtml, parse, 3);
    unified := AppendArticles(unified, cnnArticles, "CNN");

    var youtubeItems := YoutubeNewsAgent.GetTranscripts(YoutubeNewsAgent.Channels, feed, api, 1);
    unified := unified + youtubeItems;

    YoutubeNewsAgent.TranscriptsSourced(YoutubeNewsAgent.Channels, feed, api, 1);
    UnifiedNormalizes(bbcArticles, cnnArticles, youtubeItems);
    var r := PreprocessData(unified);
    processed := r.value;
  }
}
