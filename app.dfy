/** The summarising step of the application: each normalised record is sent
    to the language model, the chatty opening the model may add is cut from
    its answer, and only the records whose call succeeded are kept. */
module App {
  import opened Wrappers
  import opened Text
  import Preprocessing

  /** The openings removed from a summary, tested in this order. */
  const Prefixes: seq<string> := ["Here is a summary", "Here's a summary", "The following is a summary", "Summary:"]

  /** `s.lower().startswith(p.lower())`. */
  predicate StartsWithIgnoreCase(s: string, p: string) {
    StartsWith(Lower(s), Lower(p))
  }

  /** Matching a prefix while ignoring case needs the summary to be at least
      as long as the prefix. */
  lemma StartsWithIgnoreCaseLength(s: string, p: string)
    requires StartsWithIgnoreCase(s, p)
    ensures |p| <= |s|
  {
    assert |Lower(p)| <= |Lower(s)|;
  }

  /** `s[len(p):].strip().lstrip(":").strip()`: the prefix cut off by length,
      then whitespace, leading colons and whitespace again. */
  function RemovePrefix(s: string, p: string): (r: string)
    ensures Trimmed(r)
  {
    var rest := if |p| <= |s| then s[|p|..] else "";
    Strip(TrimStartChar(Strip(rest), ':'))
  }

  /** The loop over the prefixes: each one is tested once, in order, against
      the summary as the earlier prefixes left it. */
  function StripPrefixes(s: string, prefixes: seq<string>): (r: string)
    ensures r == s || Trimmed(r)
    decreases |prefixes|
  {
    if prefixes == [] then s
    else
      var next := if StartsWithIgnoreCase(s, prefixes[0]) then RemovePrefix(s, prefixes[0]) else s;
      StripPrefixes(next, prefixes[1..])
  }

  /** The first prefix that opens the summary is the first one removed, and
      only the prefixes after it are tested against what remains: an earlier
      prefix that the removal uncovers stays. */
  lemma {:induction false} StripPrefixesFirstMatch(s: string, prefixes: seq<string>, k: nat)
    requires k < |prefixes|
    requires forall j :: 0 <= j < k ==> !StartsWithIgnoreCase(s, prefixes[j])
    requires StartsWithIgnoreCase(s, prefixes[k])
    ensures StripPrefixes(s, prefixes) == StripPrefixes(RemovePrefix(s, prefixes[k]), prefixes[k + 1..])
    decreases k
  {
    if k > 0 {
      StripPrefixesFirstMatch(s, prefixes[1..], k - 1);
      assert prefixes[1..][k..] == prefixes[k + 1..];
    }
  }

  /** The summary as `main` stores it: stripped, then cleared of the openings. */
  function CleanedSummary(raw: string): (r: string)
    ensures Trimmed(r)
  {
    StripPrefixes(Strip(raw), Prefixes)
  }

  /** A suffix of a suffix is a suffix. */
  lemma SuffixTransitive(a: string, b: string, c: string)
    requires IsSuffix(a, b) && IsSuffix(b, c)
    ensures IsSuffix(a, c)
  {
    assert c[|c| - |b|..][|b| - |a|..] == c[|c| - |a|..];
  }

  /** Cutting a prefix keeps a trimmed summary trimmed, keeps only a tail of
      it, and shortens it by at least the prefix. */
  lemma RemovePrefixIsSuffix(s: string, p: string)
    requires Trimmed(s)
    requires |p| <= |s|
    ensures IsSuffix(RemovePrefix(s, p), s)
    ensures |RemovePrefix(s, p)| <= |s| - |p|
  {
    var rest := s[|p|..];
    assert IsSuffix(rest, s);
    assert NoTrailingSpace(rest) by {
      if rest != [] {
        assert rest[|rest| - 1] == s[|s| - 1];
      }
    }
    var once := Strip(rest);
    StripIsSuffix(rest);
    SuffixTransitive(once, rest, s);
    var colonless := TrimStartChar(once, ':');
    SuffixTransitive(colonless, once, s);
    assert NoTrailingSpace(colonless) by {
      if colonless != [] {
        assert colonless[|colonless| - 1] == once[|once| - 1];
      }
    }
    StripIsSuffix(colonless);
    SuffixTransitive(RemovePrefix(s, p), colonless, s);
  }

  /** Running the prefix loop on a trimmed summary gives a trimmed tail of it. */
  lemma {:induction false} StripPrefixesSuffix(s: string, prefixes: seq<string>)
    requires Trimmed(s)
    ensures Trimmed(StripPrefixes(s, prefixes))
    ensures IsSuffix(StripPrefixes(s, prefixes), s)
    decreases |prefixes|
  {
    if prefixes != [] {
      var p := prefixes[0];
      if StartsWithIgnoreCase(s, p) {
        StartsWithIgnoreCaseLength(s, p);
        RemovePrefixIsSuffix(s, p);
        var next := RemovePrefix(s, p);
        StripPrefixesSuffix(next, prefixes[1..]);
        SuffixTransitive(StripPrefixes(next, prefixes[1..]), next, s);
      } else {
        StripPrefixesSuffix(s, prefixes[1..]);
      }
    }
  }

  /** The cleaned summary has no whitespace at either end and is a tail of the
      stripped answer, so never longer than it. */
  lemma CleanedSummaryShape(raw: string)
    ensures Trimmed(CleanedSummary(raw))
    ensures IsSuffix(CleanedSummary(raw), Strip(raw))
    ensures |CleanedSummary(raw)| <= |Strip(raw)|
  {
    StripPrefixesSuffix(Strip(raw), Prefixes);
  }

  /** A summary none of the prefixes opens passes the loop unchanged. */
  lemma {:induction false} StripPrefixesNoMatch(s: string, prefixes: seq<string>)
    requires forall k :: 0 <= k < |prefixes| ==> !StartsWithIgnoreCase(s, prefixes[k])
    ensures StripPrefixes(s, prefixes) == s
    decreases |prefixes|
  {
    if prefixes != [] {
      assert !StartsWithIgnoreCase(s, prefixes[0]);
      assert forall k :: 0 <= k < |prefixes| - 1 ==> prefixes[1..][k] == prefixes[k + 1];
      StripPrefixesNoMatch(s, prefixes[1..]);
    }
  }

  /** When the stripped answer starts with none of the openings, ignoring
      case, it is stored as it is. */
  lemma CleanedSummaryNoMatch(raw: string)
    requires forall k :: 0 <= k < |Prefixes| ==> !StartsWithIgnoreCase(Strip(raw), Prefixes[k])
    ensures CleanedSummary(raw) == Strip(raw)
  {
    StripPrefixesNoMatch(Strip(raw), Prefixes);
  }

  /** None of the first three openings starts "Summary: Here is a summary". */
  lemma ExampleSkipsEarlyPrefixes()
    ensures forall j :: 0 <= j < 3 ==> !StartsWithIgnoreCase("Summary: Here is a summary", Prefixes[j])
  {
    assert Lower("Summary: Here is a summary")[0] == 's';
    assert Lower(Prefixes[0])[0] == 'h' && Lower(Prefixes[1])[0] == 'h' && Lower(Prefixes[2])[0] == 't';
  }

  /** Cutting "Summary:" leaves "Here is a summary". */
  lemma ExampleRemovesSummaryColon()
    ensures StartsWithIgnoreCase("Summary: Here is a summary", Prefixes[3])
    ensures RemovePrefix("Summary: Here is a summary", Prefixes[3]) == "Here is a summary"
  {
    var raw := "Summary: Here is a summary";
    var kept := "Here is a summary";
    assert Lower(raw)[..8] == Lower(Prefixes[3]);
    StripTrimmed(kept);
    assert raw[8..] == [' '] + kept;
    assert Strip(raw[8..]) == kept;
    assert TrimStartChar(kept, ':') == kept;
  }

  /** An answer opening with "Summary:" loses that opening, but the "Here is
      a summary" it uncovers stays: that prefix was tested before. */
  lemma UncoveredPrefixStays()
    ensures CleanedSummary("Summary: Here is a summary") == "Here is a summary"
  {
    var raw := "Summary: Here is a summary";
    StripTrimmed(raw);
    ExampleSkipsEarlyPrefixes();
    ExampleRemovesSummaryColon();
    StripPrefixesFirstMatch(raw, Prefixes, 3);
  }

  /** The cleaning lines of `main`: strip, then the loop over `prefixes`
      reassigning `clean_summary`. */
  method CleanSummary(summary: string) returns (clean: string)
    ensures clean == CleanedSummary(summary)
  {
    clean := Strip(summary);
    var prefixes := Prefixes;
    for i := 0 to |prefixes|
      invariant StripPrefixes(clean, prefixes[i..]) == CleanedSummary(summary)
    {
      var prefix := prefixes[i];
      assert prefixes[i..][1..] == prefixes[i + 1..];
      if StartsWith(Lower(clean), Lower(prefix)) {
        StartsWithIgnoreCaseLength(clean, prefix);
        clean := Strip(TrimStartChar(Strip(clean[|prefix|..]), ':'));
      }
    }
  }

  /** One entry of `final_results`: the record's source and title, and the
      cleaned summary in place of the content. */
  datatype Summary = Summary(source: string, title: string, summary: string)

  /** `chain.invoke` on a record's title and content: the model's answer, or
      the message of the exception it raised. */
  type Invoke = (string, string) -> Result<string, string>

  /** What `final_results` holds after the loop over `articles`, each answer
      passed through `clean` (`CleanedSummary` in `main`). */
  function Summaries(articles: seq<Preprocessing.Record>, invoke: Invoke, clean: string -> string)
    : (r: seq<Summary>)
    ensures |r| <= |articles|
    decreases |articles|
  {
    if articles == [] then []
    else
      var before := Summaries(articles[..|articles| - 1], invoke, clean);
      var article := articles[|articles| - 1];
      match invoke(article.title, article.content)
      case Err(_) => before
      case Ok(answer) => before + [Summary(article.source, article.title, clean(answer))]
  }

  /** One more article: its summary is appended when the call succeeds and
      nothing happens when it fails. */
  lemma SummariesStep(articles: seq<Preprocessing.Record>, i: nat, invoke: Invoke, clean: string -> string)
    requires i < |articles|
    ensures var answer := invoke(articles[i].title, articles[i].content);
            Summaries(articles[..i + 1], invoke, clean)
              == Summaries(articles[..i], invoke, clean)
                 + if answer.Ok? then [Summary(articles[i].source, articles[i].title, clean(answer.value))]
                   else []
  {
    assert articles[..i + 1][..i] == articles[..i];
  }

  /** The summary an article gets when its call succeeds. */
  predicate SummaryOf(article: Preprocessing.Record, s: Summary, invoke: Invoke, clean: string -> string) {
    var answer := invoke(article.title, article.content);
    answer.Ok? && s == Summary(article.source, article.title, clean(answer.value))
  }

  /** `idx` lists, in increasing order, exactly the articles whose call
      succeeded, and `out` holds their summaries. */
  predicate SucceededAt(articles: seq<Preprocessing.Record>, invoke: Invoke, clean: string -> string,
                        idx: seq<nat>, out: seq<Summary>) {
    && |idx| == |out|
    && (forall a, b :: 0 <= a < b < |idx| ==> idx[a] < idx[b])
    && (forall k :: 0 <= k < |idx| ==> idx[k] < |articles| && SummaryOf(articles[idx[k]], out[k], invoke, clean))
    && (forall i :: 0 <= i < |articles| && invoke(articles[i].title, articles[i].content).Ok? ==> i in idx)
  }

  /** A failed last call adds nothing. */
  lemma SucceededAtSkip(articles: seq<Preprocessing.Record>, invoke: Invoke, clean: string -> string,
                        idx: seq<nat>, out: seq<Summary>)
    requires articles != []
    requires invoke(articles[|articles| - 1].title, articles[|articles| - 1].content).Err?
    requires SucceededAt(articles[..|articles| - 1], invoke, clean, idx, out)
    ensures SucceededAt(articles, invoke, clean, idx, out)
  {
    var init := articles[..|articles| - 1];
    assert forall j :: 0 <= j < |init| ==> init[j] == articles[j];
  }

  /** A successful last call adds its article and its summary. */
  lemma SucceededAtAppend(articles: seq<Preprocessing.Record>, invoke: Invoke, clean: string -> string,
                          idx: seq<nat>, out: seq<Summary>, last: Summary)
    requires articles != []
    requires SummaryOf(articles[|articles| - 1], last, invoke, clean)
    requires SucceededAt(articles[..|articles| - 1], invoke, clean, idx, out)
    ensures SucceededAt(articles, invoke, clean, idx + [|articles| - 1], out + [last])
  {
    var init := articles[..|articles| - 1];
    assert forall j :: 0 <= j < |init| ==> init[j] == articles[j];
    var idx2, out2 := idx + [|articles| - 1], out + [last];
    forall k | 0 <= k < |idx|
      ensures idx2[k] < |articles| && SummaryOf(articles[idx2[k]], out2[k], invoke, clean)
    {
      assert idx2[k] == idx[k] && out2[k] == out[k];
    }
  }

  /** The results are, in input order, exactly the articles whose call
      succeeded, each with its source, its title and its cleaned answer. */
  lemma {:induction false} SummariesSucceeded(articles: seq<Preprocessing.Record>, invoke: Invoke,
                                              clean: string -> string)
    returns (idx: seq<nat>)
    ensures SucceededAt(articles, invoke, clean, idx, Summaries(articles, invoke, clean))
    decreases |articles|
  {
    if articles == [] {
      idx := [];
    } else {
      var lastIndex: nat := |articles| - 1;
      var init := articles[..lastIndex];
      var before := SummariesSucceeded(init, invoke, clean);
      var earlier := Summaries(init, invoke, clean);
      var article := articles[lastIndex];
      var answer := invoke(article.title, article.content);
      if answer.Ok? {
        var last := Summary(article.source, article.title, clean(answer.value));
        assert Summaries(articles, invoke, clean) == earlier + [last];
        SucceededAtAppend(articles, invoke, clean, before, earlier, last);
        idx := before + [lastIndex];
      } else {
        assert Summaries(articles, invoke, clean) == earlier;
        SucceededAtSkip(articles, invoke, clean, before, earlier);
        idx := before;
      }
    }
  }

  /** When every call succeeds, every article has its summary, in order. */
  lemma {:induction false} SummariesAllSucceed(articles: seq<Preprocessing.Record>, invoke: Invoke,
                                               clean: string -> string)
    requires forall i :: 0 <= i < |articles| ==> invoke(articles[i].title, articles[i].content).Ok?
    ensures |Summaries(articles, invoke, clean)| == |articles|
    ensures forall k :: 0 <= k < |articles| ==>
              SummaryOf(articles[k], Summaries(articles, invoke, clean)[k], invoke, clean)
    decreases |articles|
  {
    if articles != [] {
      var init := articles[..|articles| - 1];
      assert forall j :: 0 <= j < |init| ==> init[j] == articles[j];
      SummariesAllSucceed(init, invoke, clean);
    }
  }

  /** The loop of `main`: a failed call is skipped and the loop goes on. */
  method SummarizeArticles(articles: seq<Preprocessing.Record>, invoke: Invoke)
    returns (finalResults: seq<Summary>)
    ensures finalResults == Summaries(articles, invoke, CleanedSummary)
  {
    finalResults := [];
    for i := 0 to |articles|
      invariant finalResults == Summaries(articles[..i], invoke, CleanedSummary)
    {
      var article := articles[i];
      SummariesStep(articles, i, invoke, CleanedSummary);
      var answer := invoke(article.title, article.content);
      if answer.Err? {
        continue;
      }
      var cleanSummary := CleanSummary(answer.value);
      finalResults := finalResults + [Summary(article.source, article.title, cleanSummary)];
    }
    assert articles[..|articles|] == articles;
  }
}
