/** An already-parsed HTML page, standing in for BeautifulSoup, and the
    paragraph-text join that both article extractors end with. */
module Html {
  import opened Wrappers
  import opened Text

  /** One element of the page: its tag, its `data-component-name` attribute
      if it has one, and the text strings below it in document order. */
  datatype Element = Element(tag: string, componentName: Option<string>, strings: seq<string>)

  /** A parsed page: every element in document order, and the elements
      inside the first `<article>` element in document order, if there is one. */
  datatype Document = Document(elements: seq<Element>, article: Option<seq<Element>>)

  /** `element.get_text(strip=True)`: every text string stripped, then concatenated. */
  function GetText(e: Element): string {
    Join(seq(|e.strings|, k requires 0 <= k < |e.strings| => Strip(e.strings[k])), "")
  }

  /** The elements that `matches` accepts, in document order (`find_all`, `select`). */
  function Select(elements: seq<Element>, matches: Element -> bool): (r: seq<Element>)
    ensures |r| <= |elements|
    ensures forall e :: e in r <==> e in elements && matches(e)
    ensures r == [] <==> forall e :: e in elements ==> !matches(e)
  {
    if elements == [] then []
    else (if matches(elements[0]) then [elements[0]] else []) + Select(elements[1..], matches)
  }

  /** `idx` picks, in increasing order, exactly the elements `matches` accepts,
      and `r` holds them. */
  predicate Picks(elements: seq<Element>, matches: Element -> bool, idx: seq<nat>, r: seq<Element>) {
    && |idx| == |r|
    && (forall a, b :: 0 <= a < b < |idx| ==> idx[a] < idx[b])
    && (forall k :: 0 <= k < |idx| ==> idx[k] < |elements| && r[k] == elements[idx[k]])
    && (forall i :: 0 <= i < |elements| && matches(elements[i]) ==> i in idx)
  }

  /** The positions of `idx`, one element further on. */
  function Shifted(idx: seq<nat>): (r: seq<nat>)
    ensures |r| == |idx|
  {
    seq(|idx|, k requires 0 <= k < |idx| => idx[k] + 1)
  }

  /** Every matching position after the first of `[first] + tail` is one
      further on than a pick of `tail`. */
  lemma ShiftedCovers(first: Element, tail: seq<Element>, matches: Element -> bool, rest: seq<nat>, picked: seq<Element>)
    requires Picks(tail, matches, rest, picked)
    ensures forall i :: 0 < i <= |tail| && matches(([first] + tail)[i]) ==> i in Shifted(rest)
  {
    forall i | 0 < i <= |tail| && matches(([first] + tail)[i])
      ensures i in Shifted(rest)
    {
      assert tail[i - 1] == ([first] + tail)[i];
      var k :| 0 <= k < |rest| && rest[k] == i - 1;
      assert Shifted(rest)[k] == i;
    }
  }

  /** A matching element put in front of the page is picked at position 0,
      and every other pick moves one place on. */
  lemma PicksConsTake(first: Element, tail: seq<Element>, matches: Element -> bool, rest: seq<nat>, picked: seq<Element>)
    requires Picks(tail, matches, rest, picked)
    requires matches(first)
    ensures Picks([first] + tail, matches, [0] + Shifted(rest), [first] + picked)
  {
    ShiftedCovers(first, tail, matches, rest, picked);
  }

  /** A non-matching element put in front of the page only moves every pick
      one place on. */
  lemma PicksConsSkip(first: Element, tail: seq<Element>, matches: Element -> bool, rest: seq<nat>, picked: seq<Element>)
    requires Picks(tail, matches, rest, picked)
    requires !matches(first)
    ensures Picks([first] + tail, matches, Shifted(rest), picked)
  {
    ShiftedCovers(first, tail, matches, rest, picked);
  }

  /** The selection keeps document order and multiplicity: it is the matching
      elements at increasing positions, every matching position included. */
  lemma {:induction false} SelectInOrder(elements: seq<Element>, matches: Element -> bool) returns (idx: seq<nat>)
    ensures Picks(elements, matches, idx, Select(elements, matches))
    decreases |elements|
  {
    if elements == [] {
      idx := [];
    } else {
      var tail := elements[1..];
      var rest := SelectInOrder(tail, matches);
      assert elements == [elements[0]] + tail;
      if matches(elements[0]) {
        PicksConsTake(elements[0], tail, matches, rest, Select(tail, matches));
        assert Select(elements, matches) == [elements[0]] + Select(tail, matches);
        idx := [0] + Shifted(rest);
      } else {
        PicksConsSkip(elements[0], tail, matches, rest, Select(tail, matches));
        assert Select(elements, matches) == Select(tail, matches);
        idx := Shifted(rest);
      }
    }
  }

  predicate IsParagraph(e: Element) {
    e.tag == "p"
  }

  /** The CSS selector `div[data-component-name='paragraph']`. */
  predicate IsComponentParagraph(e: Element) {
    e.tag == "div" && e.componentName == Some("paragraph")
  }

  /** The texts of `paragraphs`, in order. */
  function Texts(paragraphs: seq<Element>): seq<string> {
    seq(|paragraphs|, k requires 0 <= k < |paragraphs| => GetText(paragraphs[k]))
  }

  /** `"\n".join(p.get_text(strip=True) for p in paragraphs)`. */
  function JoinParagraphs(paragraphs: seq<Element>): string {
    Join(Texts(paragraphs), "\n")
  }

  /** The extracted body splits back, line by line, into the paragraph texts,
      provided no paragraph text has a line break of its own. */
  lemma JoinParagraphsLines(paragraphs: seq<Element>)
    requires |paragraphs| >= 1
    requires forall k :: 0 <= k < |paragraphs| ==> '\n' !in GetText(paragraphs[k])
    ensures Split(JoinParagraphs(paragraphs), '\n') == Texts(paragraphs)
  {
    SplitJoin(Texts(paragraphs), '\n');
  }
}
