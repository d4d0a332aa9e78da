/** The application store: the writer's state in one place, with a setter
    per field. Some setters take either a new value or a function of the
    current one; two of them turn a missing map into the empty map; and
    selecting by index looks the image up in the current gallery. Every
    setter changes its own fields and nothing else. */
module Store {
  import opened Common
  import opened Layout
  import opened Gallery
  import opened Writer

  /** A setter argument: a value, or a function of the current value. */
  datatype Update<!T> = Value(v: T) | Apply(f: T -> T)

  /** `typeof updater === "function" ? updater(current) : updater` */
  function Resolve<T>(u: Update<T>, current: T): T {
    match u
    case Value(v) => v
    case Apply(f) => f(current)
  }

  /** A map argument: `None` is a `null`/`undefined` value, which becomes
      `{}`. */
  function ResolveMap<K, V>(u: Option<Update<map<K, V>>>, current: map<K, V>): (r: map<K, V>)
    ensures u.None? ==> r == map[]
    ensures u.Some? ==> r == Resolve(u.value, current)
  {
    if u.None? then map[] else Resolve(u.value, current)
  }

  class WriterStore {
    var text: string
    var images: seq<Image>
    var isSearching: bool
    var notification: Option<Notification>
    var panScale: real
    var panPosition: Point
    var selectedImage: Option<Image>
    var selectedImageIndex: int
    var currentKeyword: string
    var keywordsMap: map<string, string>
    var showExamples: bool
    var showPDFPreview: bool
    var showDrawingCanvas: bool
    var imagePositions: seq<Point>
    var imageSizes: map<string, Size>

    /** The selection is the gallery image at the selected index, or
        nothing when the index is out of range. */
    predicate SelectionInSync()
      reads this
    {
      selectedImage == ImageAt(images, selectedImageIndex)
    }

    /** The initial state. */
    constructor ()
      ensures text == "" && images == [] && !isSearching && notification.None?
      ensures panScale == 1.0 && panPosition == Point(0.0, 0.0)
      ensures selectedImage.None? && selectedImageIndex == -1 && currentKeyword == ""
      ensures keywordsMap == map[] && !showExamples && !showPDFPreview && !showDrawingCanvas
      ensures imagePositions == [] && imageSizes == map[]
      ensures SelectionInSync()
    {
      text := "";
      images := [];
      isSearching := false;
      notification := None;
      panScale := 1.0;
      panPosition := Point(0.0, 0.0);
      selectedImage := None;
      selectedImageIndex := -1;
      currentKeyword := "";
      keywordsMap := map[];
      showExamples := false;
      showPDFPreview := false;
      showDrawingCanvas := false;
      imagePositions := [];
      imageSizes := map[];
    }

    method SetText(v: string)
      modifies this`text
      ensures text == v
    {
      text := v;
    }

    method SetImages(v: seq<Image>)
      modifies this`images
      ensures images == v
    {
      images := v;
    }

    method SetIsSearching(v: bool)
      modifies this`isSearching
      ensures isSearching == v
    {
      isSearching := v;
    }

    method SetNotification(v: Option<Notification>)
      modifies this`notification
      ensures notification == v
    {
      notification := v;
    }

    method SetPanScale(u: Update<real>)
      modifies this`panScale
      ensures panScale == Resolve(u, old(panScale))
    {
      panScale := Resolve(u, panScale);
    }

    method SetPanPosition(u: Update<Point>)
      modifies this`panPosition
      ensures panPosition == Resolve(u, old(panPosition))
    {
      panPosition := Resolve(u, panPosition);
    }

    /** `setSelectedImage(image, index = -1)`: both fields as given; the
        selection is in sync exactly when the image is the one at the
        index. */
    method SetSelectedImage(image: Option<Image>, index: Option<int>)
      modifies this`selectedImage, this`selectedImageIndex
      ensures selectedImage == image
      ensures selectedImageIndex == if index.Some? then index.value else -1
      ensures SelectionInSync() <==> image == ImageAt(images, selectedImageIndex)
    {
      selectedImage := image;
      selectedImageIndex := if index.Some? then index.value else -1;
    }

    /** `setSelectedImageIndex`: the index as given, the image looked up in
        the current gallery (nothing when out of range), which puts the
        selection in sync. */
    method SetSelectedImageIndex(index: int)
      modifies this`selectedImage, this`selectedImageIndex
      ensures selectedImageIndex == index
      ensures 0 <= index < |images| ==> selectedImage == Some(images[index])
      ensures !(0 <= index < |images|) ==> selectedImage.None?
      ensures SelectionInSync()
    {
      selectedImageIndex := index;
      selectedImage := if index >= 0 && index < |images| then Some(images[index]) else None;
    }

    method SetCurrentKeyword(v: string)
      modifies this`currentKeyword
      ensures currentKeyword == v
    {
      currentKeyword := v;
    }

    method SetKeywordsMap(u: Option<Update<map<string, string>>>)
      modifies this`keywordsMap
      ensures u.None? ==> keywordsMap == map[]
      ensures u.Some? ==> keywordsMap == Resolve(u.value, old(keywordsMap))
    {
      keywordsMap := ResolveMap(u, keywordsMap);
    }

    method SetShowExamples(v: bool)
      modifies this`showExamples
      ensures showExamples == v
    {
      showExamples := v;
    }

    method SetShowPDFPreview(v: bool)
      modifies this`showPDFPreview
      ensures showPDFPreview == v
    {
      showPDFPreview := v;
    }

    method SetShowDrawingCanvas(v: bool)
      modifies this`showDrawingCanvas
      ensures showDrawingCanvas == v
    {
      showDrawingCanvas := v;
    }

    method SetImagePositions(v: seq<Point>)
      modifies this`imagePositions
      ensures imagePositions == v
    {
      imagePositions := v;
    }

    method SetImageSizes(u: Option<Update<map<string, Size>>>)
      modifies this`imageSizes
      ensures u.None? ==> imageSizes == map[]
      ensures u.Some? ==> imageSizes == Resolve(u.value, old(imageSizes))
    {
      imageSizes := ResolveMap(u, imageSizes);
    }
  }

  /** Selecting by index and then replacing the gallery can leave the
      selection pointing at an image that is no longer there: the store
      does not re-synchronise it. */
  method ReplacingImagesKeepsSelection(s: WriterStore, index: int, replacement: seq<Image>)
    modifies s`selectedImage, s`selectedImageIndex, s`images
    ensures s.selectedImageIndex == index && s.images == replacement
    ensures s.selectedImage == ImageAt(old(s.images), index)
  {
    s.SetSelectedImageIndex(index);
    s.SetImages(replacement);
  }
}
