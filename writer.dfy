/** The writing screen's own state and handlers: committing the results of
    a keyword search (one random image per keyword, de-duplicated by photo
    id), centring the canvas on an image, and stepping the selection. The
    800 ms debounce, the requests and the DOM reads are outside the model:
    the per-keyword results, the random draws, the container size and the
    computed paddings are parameters. */
module Writer {
  import opened Common
  import opened Gallery
  import Keywords
  import opened Layout

  datatype NotificationKind = Info | Error
  datatype Notification = Notification(message: string, kind: NotificationKind)

  const NoImagesMessage: string := "No images found for these keywords"
  const TargetScale: real := 1.8
  const FallbackPadding: real := 12.0
  /** A plain object ignores a string assigned to its `__proto__` key, so
      this keyword never gets an entry in a colour map. */
  const ProtoKey: string := "__proto__"

  /** `{ ...prev, ...newKeywordsMap }`: the new colours win, every other
      entry stays. */
  lemma MergeColors(prev: map<string, string>, added: map<string, string>, keywords: seq<string>)
    requires forall k :: k in added <==> k in keywords && k != ProtoKey
    requires forall k :: k in added ==> added[k] == Keywords.KeywordColor(k)
    ensures Merged(prev + added, prev, keywords)
  {
  }

  /** `colors` holds every key of `prev` and every keyword but `__proto__`;
      those keywords have their own colour and every other key keeps its old
      one. */
  ghost predicate Merged(colors: map<string, string>, prev: map<string, string>, keywords: seq<string>) {
    (forall k :: k in colors <==> k in prev || (k in keywords && k != ProtoKey))
    && (forall k :: k in keywords && k != ProtoKey ==> k in colors && colors[k] == Keywords.KeywordColor(k))
    && (forall k :: k in prev && (k !in keywords || k == ProtoKey) ==> k in colors && colors[k] == prev[k])
  }

  function Ids(s: seq<Image>): seq<string> {
    seq(|s|, i requires 0 <= i < |s| => s[i].photo.id)
  }

  /** What filling a `Map` keyed by id, skipping ids already present, and
      reading back its values gives: the first image of each id, in order of
      first appearance. */
  function DedupById(s: seq<Image>): seq<Image> {
    if s == [] then []
    else
      var front := DedupById(s[..|s| - 1]);
      if s[|s| - 1].photo.id in Ids(front) then front else front + [s[|s| - 1]]
  }

  lemma DedupByIdSnoc(s: seq<Image>, x: Image)
    ensures DedupById(s + [x]) ==
      if x.photo.id in Ids(DedupById(s)) then DedupById(s) else DedupById(s) + [x]
  {
    assert (s + [x])[..|s|] == s;
  }

  lemma DedupByIdStep(s: seq<Image>, i: nat)
    requires i < |s|
    ensures DedupById(s[..i + 1]) ==
      if s[i].photo.id in Ids(DedupById(s[..i])) then DedupById(s[..i]) else DedupById(s[..i]) + [s[i]]
  {
    DedupByIdSnoc(s[..i], s[i]);
    assert s[..i + 1] == s[..i] + [s[i]];
  }

  lemma IdsSnoc(p: seq<Image>, x: Image)
    ensures Ids(p + [x]) == Ids(p) + [x.photo.id]
  {
  }

  lemma IdsMembers(p: seq<Image>, x: Image, id: string)
    ensures id in Ids(p + [x]) <==> id in Ids(p) || id == x.photo.id
  {
    IdsSnoc(p, x);
  }

  /** The committed images have pairwise distinct ids. */
  lemma {:induction false} DedupByIdDistinct(s: seq<Image>)
    ensures Distinct(Ids(DedupById(s)))
  {
    if s != [] {
      var p := s[..|s| - 1];
      var x := s[|s| - 1];
      DedupByIdDistinct(p);
      if x.photo.id !in Ids(DedupById(p)) {
        IdsSnoc(DedupById(p), x);
      }
    }
  }

  /** Every id of the input is kept, and no other. */
  lemma {:induction false} DedupByIdIds(s: seq<Image>, id: string)
    ensures id in Ids(DedupById(s)) <==> id in Ids(s)
  {
    if s != [] {
      var p := s[..|s| - 1];
      var x := s[|s| - 1];
      assert s == p + [x];
      DedupByIdIds(p, id);
      IdsMembers(p, x, id);
      IdsMembers(DedupById(p), x, id);
      DedupByIdIds(p, x.photo.id);
    }
  }

  /** Each kept image is the first one of the input with its id. */
  lemma {:induction false} DedupByIdFirst(s: seq<Image>, j: nat)
    requires j < |DedupById(s)|
    ensures DedupById(s)[j].photo.id in Ids(s)
    ensures DedupById(s)[j] == s[FirstIndex(Ids(s), DedupById(s)[j].photo.id)]
  {
    var p := s[..|s| - 1];
    var x := s[|s| - 1];
    assert s == p + [x];
    IdsSnoc(p, x);
    var dp := DedupById(p);
    if j < |dp| {
      DedupByIdFirst(p, j);
      FirstIndexExtend(Ids(p), x.photo.id, dp[j].photo.id);
    } else {
      assert DedupById(s) == dp + [x];
      DedupByIdIds(p, x.photo.id);
      IdsSnoc(dp, x);
      assert x.photo.id !in Ids(p);
      assert FirstIndex(Ids(s), x.photo.id) == |p|;
    }
  }

  /** De-duplication keeps the order of first appearance. */
  lemma {:induction false} DedupByIdOrder(s: seq<Image>, i: nat, j: nat)
    requires i < j < |DedupById(s)|
    ensures DedupById(s)[i].photo.id in Ids(s) && DedupById(s)[j].photo.id in Ids(s)
    ensures FirstIndex(Ids(s), DedupById(s)[i].photo.id) < FirstIndex(Ids(s), DedupById(s)[j].photo.id)
  {
    var p := s[..|s| - 1];
    var x := s[|s| - 1];
    assert s == p + [x];
    IdsSnoc(p, x);
    var d := DedupById(s);
    var dp := DedupById(p);
    if x.photo.id in Ids(dp) || j < |dp| {
      assert d[i] == dp[i] && d[j] == dp[j];
      DedupByIdOrder(p, i, j);
      FirstIndexExtend(Ids(p), x.photo.id, d[i].photo.id);
      FirstIndexExtend(Ids(p), x.photo.id, d[j].photo.id);
    } else {
      assert d == dp + [x];
      assert d[i] == dp[i];
      assert Ids(dp)[i] == d[i].photo.id;
      DedupByIdIds(p, d[i].photo.id);
      DedupByIdIds(p, x.photo.id);
      FirstIndexExtend(Ids(p), x.photo.id, d[i].photo.id);
      assert d[j] == x && x.photo.id !in Ids(p);
      assert FirstIndex(Ids(s), x.photo.id) == |p|;
    }
  }

  /** The `uniqueImagesMap` loop. */
  method UniqueImages(all: seq<Image>) returns (unique: seq<Image>)
    ensures unique == DedupById(all)
  {
    var byId: map<string, Image> := map[];
    unique := [];
    var i := 0;
    while i < |all|
      invariant 0 <= i <= |all|
      invariant unique == DedupById(all[..i])
      invariant forall id :: id in byId <==> id in Ids(unique)
    {
      var image := all[i];
      DedupByIdStep(all, i);
      if image.photo.id !in byId {
        IdsSnoc(unique, image);
        byId := byId[image.photo.id := image];
        unique := unique + [image];
      }
      i := i + 1;
    }
    assert all[..i] == all;
  }

  /** The `newKeywordsMap` loop: each keyword mapped to its colour, except
      `__proto__`, which the plain object does not store. */
  method KeywordColors(keywords: seq<string>) returns (m: map<string, string>)
    ensures forall k :: k in m <==> k in keywords && k != ProtoKey
    ensures forall k :: k in m ==> m[k] == Keywords.KeywordColor(k)
  {
    m := map[];
    var i := 0;
    while i < |keywords|
      invariant 0 <= i <= |keywords|
      invariant forall k :: k in m <==> k in keywords[..i] && k != ProtoKey
      invariant forall k :: k in m ==> m[k] == Keywords.KeywordColor(k)
    {
      if keywords[i] != ProtoKey {
        m := m[keywords[i] := Keywords.KeywordColor(keywords[i])];
      }
      assert keywords[..i + 1] == keywords[..i] + [keywords[i]];
      i := i + 1;
    }
    assert keywords[..i] == keywords;
  }

  /** `parseFloat(padding) || 12`: an unreadable or zero padding falls back
      to 12. */
  function PaddingOr(p: Option<real>): (r: real)
    ensures r != 0.0
    ensures p.Some? && p.value != 0.0 ==> r == p.value
    ensures !(p.Some? && p.value != 0.0) ==> r == FallbackPadding
  {
    if p.Some? && p.value != 0.0 then p.value else FallbackPadding
  }

  /** The centre of an image in canvas coordinates, padding included. */
  function ImageCenter(pos: Point, size: Size, padLeft: real, padTop: real): Point {
    Point(pos.x + padLeft + size.width / 2.0, pos.y + padTop + size.height / 2.0)
  }

  /** The pan position that brings an image's centre to the container's
      centre at the target scale. */
  function FocusPosition(container: Size, center: Point): (r: Point)
    ensures r.x + center.x * TargetScale == container.width / 2.0
    ensures r.y + center.y * TargetScale == container.height / 2.0
  {
    Point(container.width / 2.0 - center.x * TargetScale, container.height / 2.0 - center.y * TargetScale)
  }

  /** `images.findIndex((img) => img.keyword === keyword)` */
  function KeywordIndex(images: seq<Image>, keyword: string): (i: int)
    ensures -1 <= i < |images|
    ensures i >= 0 ==> images[i].keyword == keyword && forall j :: 0 <= j < i ==> images[j].keyword != keyword
    ensures i == -1 <==> forall j :: 0 <= j < |images| ==> images[j].keyword != keyword
  {
    if images == [] then -1
    else if images[0].keyword == keyword then 0
    else
      var i := KeywordIndex(images[1..], keyword);
      if i == -1 then -1 else i + 1
  }

  function ImageAt(images: seq<Image>, i: int): (r: Option<Image>)
    ensures r.Some? <==> 0 <= i < |images|
    ensures r.Some? ==> r.value == images[i]
  {
    if 0 <= i < |images| then Some(images[i]) else None
  }

  class WriterState {
    var text: string
    var images: seq<Image>
    var isSearching: bool
    var notification: Option<Notification>
    var panScale: real
    var panPosition: Point
    var selectedImage: Option<Image>
    var selectedImageIndex: int
    var currentKeyword: string
    var keywordsMap: map<string, string>
    var imagePositions: seq<Point>
    var imageSizes: map<string, Size>

    /** The initial `useState` values. */
    constructor ()
      ensures text == [] && images == [] && !isSearching && notification.None?
      ensures panScale == 1.0 && panPosition == Point(0.0, 0.0)
      ensures selectedImage.None? && selectedImageIndex == -1 && currentKeyword == []
      ensures keywordsMap == map[] && imagePositions == [] && imageSizes == map[]
    {
      text, images, isSearching, notification := [], [], false, None;
      panScale, panPosition := 1.0, Point(0.0, 0.0);
      selectedImage, selectedImageIndex, currentKeyword := None, -1, [];
      keywordsMap, imagePositions, imageSizes := map[], [], map[];
    }

    /** The body of the debounced search, given what each keyword's request
        returned and each keyword's random draw. */
    method ApplySearch(keywords: seq<string>, results: seq<SearchResult>, draws: seq<real>)
      requires |results| == |keywords| == |draws| && DrawsInRange(draws)
      modifies this`images, this`isSearching, this`notification, this`imageSizes,
        this`imagePositions, this`keywordsMap, this`currentKeyword
      ensures !isSearching
      ensures keywords == [] ==>
        images == [] && notification == old(notification) && keywordsMap == old(keywordsMap)
        && currentKeyword == old(currentKeyword) && imageSizes == old(imageSizes) && imagePositions == old(imagePositions)
      ensures keywords != [] && Hits(results) == 0 ==>
        images == [] && notification == Some(Notification(NoImagesMessage, Info))
        && keywordsMap == old(keywordsMap) && currentKeyword == old(currentKeyword)
        && imageSizes == old(imageSizes) && imagePositions == old(imagePositions)
      ensures keywords != [] && Hits(results) > 0 ==>
        images == DedupById(Picks(keywords, results, draws)) && notification == old(notification)
        && imageSizes == map[] && imagePositions == []
        && currentKeyword == keywords[|keywords| - 1]
        && Merged(keywordsMap, old(keywordsMap), keywords)
    {
      if keywords == [] {
        images := [];
        isSearching := false;
        return;
      }
      isSearching := true;
      var all := Picks(keywords, results, draws);
      PicksCount(keywords, results, draws);
      if |all| > 0 {
        CommitImages(keywords, all);
      } else {
        images := [];
        notification := Some(Notification(NoImagesMessage, Info));
      }
      isSearching := false;
    }

    /** The branch of the search that found images: the de-duplicated
        images replace the old ones, the sizes and positions are cleared,
        the keywords get their colours and the last keyword becomes current. */
    method CommitImages(keywords: seq<string>, all: seq<Image>)
      requires keywords != []
      modifies this`images, this`imageSizes, this`imagePositions, this`keywordsMap, this`currentKeyword
      ensures images == DedupById(all) && imageSizes == map[] && imagePositions == []
      ensures currentKeyword == keywords[|keywords| - 1]
      ensures Merged(keywordsMap, old(keywordsMap), keywords)
    {
      var unique := UniqueImages(all);
      images := unique;
      imageSizes := map[];
      imagePositions := [];
      var newKeywordsMap := KeywordColors(keywords);
      MergeColors(keywordsMap, newKeywordsMap, keywords);
      keywordsMap := keywordsMap + newKeywordsMap;
      currentKeyword := keywords[|keywords| - 1];
    }

    /** The image at `index` has a position, the view is zoomed to 1.8, and
        the image's centre (a missing size taken as 300 by 400) lands at the
        container's centre. */
    predicate FocusedOn(index: int, container: Size, paddingTop: Option<real>, paddingLeft: Option<real>)
      reads this
    {
      0 <= index < |images| && index < |imagePositions| &&
      var size := if images[index].photo.id in imageSizes then imageSizes[images[index].photo.id]
                  else Size(DefaultWidth, DefaultHeight);
      var center := ImageCenter(imagePositions[index], size, PaddingOr(paddingLeft), PaddingOr(paddingTop));
      panScale == TargetScale
      && panPosition.x + center.x * panScale == container.width / 2.0
      && panPosition.y + center.y * panScale == container.height / 2.0
    }

    /** `navigateToImagePosition`: zoom to 1.8 and centre the image, or do
        nothing for an index outside the images or without a position, or
        when the gallery container or its inner canvas is not mounted
        (`mounted` is false). */
    method NavigateToImage(index: int, mounted: bool, container: Size, paddingTop: Option<real>, paddingLeft: Option<real>)
      modifies this`panScale, this`panPosition
      ensures !(mounted && 0 <= index < |images| && index < |imagePositions|) ==>
        panScale == old(panScale) && panPosition == old(panPosition)
      ensures mounted && 0 <= index < |images| && index < |imagePositions| ==>
        FocusedOn(index, container, paddingTop, paddingLeft)
    {
      if index < 0 || index >= |images| || index >= |imagePositions| {
        return;
      }
      if !mounted {
        return;
      }
      var imagePos := imagePositions[index];
      var imageSize := if images[index].photo.id in imageSizes then imageSizes[images[index].photo.id]
                       else Size(DefaultWidth, DefaultHeight);
      var center := ImageCenter(imagePos, imageSize, PaddingOr(paddingLeft), PaddingOr(paddingTop));
      panScale := TargetScale;
      panPosition := FocusPosition(container, center);
    }

    /** `handleImageClick` */
    method HandleImageClick(image: Image, index: int, mounted: bool, container: Size, paddingTop: Option<real>, paddingLeft: Option<real>)
      modifies this`selectedImage, this`selectedImageIndex, this`panScale, this`panPosition
      ensures selectedImage == Some(image) && selectedImageIndex == index
      ensures !(mounted && 0 <= index < |images| && index < |imagePositions|) ==>
        panScale == old(panScale) && panPosition == old(panPosition)
      ensures mounted && 0 <= index < |images| && index < |imagePositions| ==>
        FocusedOn(index, container, paddingTop, paddingLeft)
    {
      selectedImage := Some(image);
      selectedImageIndex := index;
      NavigateToImage(index, mounted, container, paddingTop, paddingLeft);
    }

    /** `handleCloseViewer`: no selection, and the zoom reset. */
    method HandleCloseViewer()
      modifies this`selectedImage, this`selectedImageIndex, this`panScale, this`panPosition
      ensures selectedImage.None? && selectedImageIndex == -1
      ensures panScale == 1.0 && panPosition == Point(0.0, 0.0)
    {
      selectedImage, selectedImageIndex := None, -1;
      panScale, panPosition := 1.0, Point(0.0, 0.0);
    }

    /** `handlePrevious`: one step back while the index is positive. */
    method HandlePrevious()
      modifies this`selectedImage, this`selectedImageIndex
      ensures old(selectedImageIndex) > 0 ==>
        selectedImageIndex == old(selectedImageIndex) - 1 && selectedImage == ImageAt(images, selectedImageIndex)
      ensures old(selectedImageIndex) <= 0 ==>
        selectedImageIndex == old(selectedImageIndex) && selectedImage == old(selectedImage)
    {
      if selectedImageIndex > 0 {
        var newIndex := selectedImageIndex - 1;
        selectedImageIndex := newIndex;
        selectedImage := ImageAt(images, newIndex);
      }
    }

    /** `handleNext`: one step forward while not at the last image. */
    method HandleNext()
      modifies this`selectedImage, this`selectedImageIndex
      ensures old(selectedImageIndex) < |images| - 1 ==>
        selectedImageIndex == old(selectedImageIndex) + 1 && selectedImage == ImageAt(images, selectedImageIndex)
      ensures old(selectedImageIndex) >= |images| - 1 ==>
        selectedImageIndex == old(selectedImageIndex) && selectedImage == old(selectedImage)
    {
      if selectedImageIndex < |images| - 1 {
        var newIndex := selectedImageIndex + 1;
        selectedImageIndex := newIndex;
        selectedImage := ImageAt(images, newIndex);
      }
    }

    /** `handleKeywordClick`: centre on the first image found for the
        keyword; nothing for an empty keyword or one without an image. */
    method HandleKeywordClick(keyword: string, mounted: bool, container: Size, paddingTop: Option<real>, paddingLeft: Option<real>)
      modifies this`panScale, this`panPosition
      ensures keyword == [] || !mounted || KeywordIndex(images, keyword) == -1 ||
              KeywordIndex(images, keyword) >= |imagePositions| ==>
        panScale == old(panScale) && panPosition == old(panPosition)
      ensures keyword != [] && mounted && 0 <= KeywordIndex(images, keyword) < |imagePositions| ==>
        FocusedOn(KeywordIndex(images, keyword), container, paddingTop, paddingLeft)
    {
      if keyword == [] {
        return;
      }
      var index := KeywordIndex(images, keyword);
      if index != -1 {
        NavigateToImage(index, mounted, container, paddingTop, paddingLeft);
      }
    }
  }
}
