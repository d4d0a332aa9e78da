/** The photo record the server returns, the gallery image the client holds
    (the record spread together with the keyword that found it and that
    keyword's colour), and the per-keyword random pick that both the writer
    and the query hook perform. */
module Gallery {
  import opened Common
  import Keywords

  /** One sanitised photo of `/api/images`. */
  datatype Photo = Photo(
    id: string,
    url: string,
    altDescription: string,
    photographerName: string,
    photographerUsername: Option<string>,
    photographerProfile: Option<string>,
    downloadLocation: Option<string>)

  /** `{ ...photo, keyword, keywordColor }` */
  datatype Image = Image(photo: Photo, keyword: string, keywordColor: string)

  /** What one request for a keyword yields on the client: an error, or the
      `images` of the response (a missing list counts as empty). */
  datatype SearchResult = Failed | Found(images: seq<Photo>)

  /** `Math.floor(draw * length)` for a draw of `Math.random()`. */
  function PickIndex(draw: real, length: nat): (i: nat)
    requires 0.0 <= draw < 1.0 && 0 < length
    ensures i < length
    ensures i as real <= draw * length as real < i as real + 1.0
  {
    var d := draw * length as real;
    assert 0.0 <= d < length as real by {
      assert length as real - d == (1.0 - draw) * length as real;
    }
    d.Floor as nat
  }

  /** The image chosen for one keyword: nothing for an error or an empty
      list, otherwise the photo at the drawn index tagged with the keyword
      and its colour. */
  function Pick(keyword: string, result: SearchResult, draw: real): (r: Option<Image>)
    requires 0.0 <= draw < 1.0
    ensures r.Some? <==> result.Found? && |result.images| > 0
    ensures r.Some? ==> r.value.keyword == keyword && r.value.keywordColor == Keywords.KeywordColor(keyword)
    ensures r.Some? ==> exists i :: 0 <= i < |result.images| && r.value.photo == result.images[i]
  {
    if result.Found? && |result.images| > 0 then
      var i := PickIndex(draw, |result.images|);
      Some(Image(result.images[i], keyword, Keywords.KeywordColor(keyword)))
    else None
  }

  predicate DrawsInRange(draws: seq<real>) {
    forall i :: 0 <= i < |draws| ==> 0.0 <= draws[i] < 1.0
  }

  function OptionToSeq<T>(o: Option<T>): seq<T> {
    if o.Some? then [o.value] else []
  }

  /** The per-keyword picks, flattened in keyword order. */
  function Picks(keywords: seq<string>, results: seq<SearchResult>, draws: seq<real>): seq<Image>
    requires |results| == |keywords| == |draws| && DrawsInRange(draws)
  {
    if keywords == [] then []
    else
      var n := |keywords| - 1;
      Picks(keywords[..n], results[..n], draws[..n]) + OptionToSeq(Pick(keywords[n], results[n], draws[n]))
  }

  /** How many keywords got a non-empty result. */
  function Hits(results: seq<SearchResult>): nat {
    if results == [] then 0
    else
      var n := |results| - 1;
      Hits(results[..n]) + (if results[n].Found? && |results[n].images| > 0 then 1 else 0)
  }

  /** One image per keyword with a non-empty result. */
  lemma {:induction false} PicksCount(keywords: seq<string>, results: seq<SearchResult>, draws: seq<real>)
    requires |results| == |keywords| == |draws| && DrawsInRange(draws)
    ensures |Picks(keywords, results, draws)| == Hits(results) <= |keywords|
  {
    if keywords != [] {
      var n := |keywords| - 1;
      PicksCount(keywords[..n], results[..n], draws[..n]);
    }
  }

  /** Each picked image is tagged with a keyword of the list and that
      keyword's colour. */
  lemma {:induction false} PicksTagged(keywords: seq<string>, results: seq<SearchResult>, draws: seq<real>, j: nat)
    requires |results| == |keywords| == |draws| && DrawsInRange(draws)
    requires j < |Picks(keywords, results, draws)|
    ensures Picks(keywords, results, draws)[j].keyword in keywords
    ensures Picks(keywords, results, draws)[j].keywordColor == Keywords.KeywordColor(Picks(keywords, results, draws)[j].keyword)
  {
    var n := |keywords| - 1;
    var front := Picks(keywords[..n], results[..n], draws[..n]);
    if j < |front| {
      PicksTagged(keywords[..n], results[..n], draws[..n], j);
      assert front[j].keyword in keywords[..n];
    }
  }
}
