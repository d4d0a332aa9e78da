/** The client's search hook: one request per keyword, issued together; a
    failed or empty search contributes nothing, and the surviving picks are
    put back in keyword order. Results are not de-duplicated. */
module Query {
  import opened Common
  import opened Gallery

  /** A settled search: the chosen image and the position of its keyword. */
  datatype Tagged = Tagged(image: Image, keywordIndex: nat)

  function SearchOne(keyword: string, keywordIndex: nat, result: SearchResult, draw: real): Option<Tagged>
    requires 0.0 <= draw < 1.0
  {
    match Pick(keyword, result, draw)
    case None => None
    case Some(image) => Some(Tagged(image, keywordIndex))
  }

  /** `keywords.map(...)`: one settled search per keyword, in keyword order. */
  function Searched(keywords: seq<string>, results: seq<SearchResult>, draws: seq<real>): seq<Option<Tagged>>
    requires |results| == |keywords| == |draws| && DrawsInRange(draws)
  {
    seq(|keywords|, i requires 0 <= i < |keywords| => SearchOne(keywords[i], i, results[i], draws[i]))
  }

  /** `filter((result) => result !== null)` */
  function Present<T>(s: seq<Option<T>>): seq<T> {
    if s == [] then []
    else Present(s[..|s| - 1]) + OptionToSeq(s[|s| - 1])
  }

  function IndexKey(t: Tagged): real {
    t.keywordIndex as real
  }

  /** `map((result) => result.image)` */
  function ImagesOf(s: seq<Tagged>): seq<Image> {
    seq(|s|, i requires 0 <= i < |s| => s[i].image)
  }

  /** `fetchImagesByKeywords`: nothing for a missing or empty keyword list;
      otherwise the settled searches, filtered, sorted by keyword index and
      reduced to their images. */
  function FetchImagesByKeywords(keywords: Option<seq<string>>, results: seq<SearchResult>, draws: seq<real>): (r: seq<Image>)
    requires keywords.Some? ==> |results| == |keywords.value| == |draws| && DrawsInRange(draws)
    ensures keywords == None || keywords == Some([]) ==> r == []
  {
    if keywords.None? || |keywords.value| == 0 then []
    else
      var images := ImagesOf(Sort(Present(Searched(keywords.value, results, draws)), IndexKey));
      if |images| == 0 then [] else images
  }

  lemma SearchedPrefix(keywords: seq<string>, results: seq<SearchResult>, draws: seq<real>, n: nat)
    requires |results| == |keywords| == |draws| && DrawsInRange(draws) && n <= |keywords|
    ensures Searched(keywords[..n], results[..n], draws[..n]) == Searched(keywords, results, draws)[..n]
  {
  }

  lemma ImagesOfAppend(a: seq<Tagged>, b: seq<Tagged>)
    ensures ImagesOf(a + b) == ImagesOf(a) + ImagesOf(b)
  {
  }

  /** The surviving searches are already in strictly increasing keyword
      order, and their images are the per-keyword picks. */
  lemma {:induction false} PresentInOrder(keywords: seq<string>, results: seq<SearchResult>, draws: seq<real>)
    requires |results| == |keywords| == |draws| && DrawsInRange(draws)
    ensures forall t :: t in Present(Searched(keywords, results, draws)) ==> t.keywordIndex < |keywords|
    ensures SortedBy(Present(Searched(keywords, results, draws)), IndexKey)
    ensures ImagesOf(Present(Searched(keywords, results, draws))) == Picks(keywords, results, draws)
  {
    if keywords != [] {
      var n := |keywords| - 1;
      var s := Searched(keywords, results, draws);
      PresentInOrder(keywords[..n], results[..n], draws[..n]);
      SearchedPrefix(keywords, results, draws, n);
      var front := Present(s[..n]);
      var last := OptionToSeq(s[n]);
      assert Present(s) == front + last;
      ImagesOfAppend(front, last);
      assert ImagesOf(last) == OptionToSeq(Pick(keywords[n], results[n], draws[n]));
      forall i, j | 0 <= i < j < |front + last|
        ensures IndexKey((front + last)[i]) <= IndexKey((front + last)[j])
      {
        if j >= |front| {
          assert (front + last)[i] in front;
        }
      }
    }
  }

  /** The sort by keyword index changes nothing, so the hook returns exactly
      the per-keyword picks in keyword order: one image per keyword whose
      search succeeded with at least one result, duplicates kept, each
      tagged with its keyword and that keyword's colour. */
  lemma FetchIsPicks(keywords: seq<string>, results: seq<SearchResult>, draws: seq<real>)
    requires |results| == |keywords| == |draws| && DrawsInRange(draws)
    ensures FetchImagesByKeywords(Some(keywords), results, draws) == Picks(keywords, results, draws)
    ensures |FetchImagesByKeywords(Some(keywords), results, draws)| == Hits(results) <= |keywords|
  {
    PicksCount(keywords, results, draws);
    if keywords != [] {
      var present := Present(Searched(keywords, results, draws));
      PresentInOrder(keywords, results, draws);
      SortKeepsSorted(present, IndexKey);
    }
  }

  /** Every returned image carries one of the searched keywords and its
      colour. */
  lemma FetchTagged(keywords: seq<string>, results: seq<SearchResult>, draws: seq<real>, j: nat)
    requires |results| == |keywords| == |draws| && DrawsInRange(draws)
    requires j < |FetchImagesByKeywords(Some(keywords), results, draws)|
    ensures FetchImagesByKeywords(Some(keywords), results, draws)[j].keyword in keywords
    ensures FetchImagesByKeywords(Some(keywords), results, draws)[j].keywordColor
         == Keywords.KeywordColor(FetchImagesByKeywords(Some(keywords), results, draws)[j].keyword)
  {
    FetchIsPicks(keywords, results, draws);
    PicksTagged(keywords, results, draws, j);
  }
}
