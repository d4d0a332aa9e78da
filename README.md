# Zen-Writing core, modelled in Dafny

Zen-Writing is a writing screen that turns typed text into a gallery of
photos. The text's keywords are extracted and coloured. Each keyword is
searched on the backend, which asks the Unsplash photo service and returns
sanitised photo records. One random photo per keyword ends up on a canvas,
laid out so that no two cards collide. The keywords are highlighted in the
editor, and a side panel steps through the gallery.

This project models the logic of that pipeline and proves what it promises.
It is organised as one module per source file, plus four shared modules:

- `Text`: white space, `\w`, trim, ASCII lower-casing and substring search.
- `Common`: optional values, JavaScript `||` fallbacks, and the stable sort
  behind `Array.prototype.sort`.
- `Attribution`: the referral marker rule shared by the server and the two
  components.
- `Gallery`: the photo record, the gallery image, and the per-keyword random
  pick.

Anything outside the program's own logic is a parameter:

- The network answers are a per-keyword `SearchResult` or an `Upstream`
  value.
- `Math.random()` is a draw in [0, 1): a sequence `draws` in the search
  code, and a function `rand` read through a cursor in the layout.
- `window.innerWidth` is an optional number.
- The container size and the computed paddings are parameters of the
  centring code.
- The editor's text nodes are a sequence of lengths.
- The canvas snapshots and the pixel buffer are a string and a sequence of
  bytes.
- The order of `Object.keys(keywordsMap)` is the `keys` parameter.

Coordinates and sizes are exact `real`s.

State that the source changes in place is modelled as classes with
`modifies` clauses:

- `Writer.WriterState` holds the writing screen's `useState` values.
- `Store.WriterStore` is the zustand store.
- `Drawing.DrawingHistory` holds the sketch pad's history.

The layout fills its `positions` array in place. The loops in the source
(the search reconciliation, the `exec` loop, the parts loop, the caret walk,
the pixel scan, the grid scan) are `while`/`for` loops. Each loop is proved
against a function that specifies it.

A few behaviours of the code, as written, show up in the model:

- Writer.js hands `onPrevious`/`onNext` to the viewer
  (frontend/src/Writer.js:557-558), but the viewer reads `onChangeIndex`.
  The viewer's buttons therefore do nothing inside the writer. In the model,
  `ImageViewer.StepClick` with `listening` false returns nothing.
- The outer `catch` of the search (frontend/src/Writer.js:117-123) cannot
  run, because every per-keyword request catches its own error. The model
  has no path for it.
- The single-part fallback of `renderHighlightedText`
  (frontend/src/components/HighlightedTextEditor.js:143) is never needed.
  `Highlight.RenderHighlightedText` proves that a non-empty value always
  yields at least one part.
- An empty key in `keywordsMap` would make the `exec` loop spin forever,
  because `exec` does not advance past an empty match. The highlighter
  therefore requires `"" !in keywordsMap`. Keys produced by
  `extractKeywords` are longer than three characters.
- The store does not re-synchronise the selection when the gallery is
  replaced. `Store.ReplacingImagesKeepsSelection` states this.
- In the writer, `handlePrevious` on a stale index past the end selects
  `images[newIndex]`, which is `undefined`. The model gives `None`.
- A typed word `__proto__` is a keyword (all `\w`, longer than three), but
  assigning to that key of a plain object does nothing. It therefore never
  gets an entry in the writer's colour map. `Writer.KeywordColors` models this.
- The centring in `navigateToImagePosition` does nothing when the gallery
  container or its inner canvas is not mounted. This is the `mounted`
  parameter of the navigation methods.

## Model

| member | source | states |
|---|---|---|
| Layout.SortArea | frontend/src/utils/layout.js:17-18 | A missing size counts as 300 by 400 both for placement and for the sort area. When neither dimension is zero, the sort area is the area of the size actually placed. |
| Layout.CanvasWidthFor | frontend/src/utils/layout.js:6-9 | The canvas is 400, 600 or 1200 wide. It is 1200 when there is no window. |
| Layout.CanvasWidthMonotone | frontend/src/utils/layout.js:7-9 | A wider window never gives a narrower canvas. |
| Layout.PlacementOrderPermutes | frontend/src/utils/layout.js:14-19 | The placement order lists every original index exactly once. |
| Layout.PlacementOrderDescending | frontend/src/utils/layout.js:18-19 | Cards are placed in order of non-increasing area. |
| Layout.PlacementOrderStable | frontend/src/utils/layout.js:19 | Cards of equal area keep their original relative order (the sort is stable). |
| Layout.NoCollisionMeansGap | frontend/src/utils/layout.js:22-29 | Two rectangles are free of each other exactly when, on some axis, one ends at least a gap before the other starts. So the check is symmetric, and rectangles exactly a gap apart do not collide. |
| Layout.RandomPhase | frontend/src/utils/layout.js:33-42 | At most 200 attempts are made, each using two fresh draws. A returned point is the first candidate that collides with nothing placed, and every earlier candidate collided. No result means all 200 attempts collided. |
| Layout.GridPhase | frontend/src/utils/layout.js:44-52 | The scan starts at the gap and steps by 50. It returns the first free cell in row-major order, and every earlier cell is taken. No result means no cell of the scan is free. |
| Layout.BelowAllIsFree | frontend/src/utils/layout.js:54-57 | When every placed card ends a gap above the bottom, a card placed a gap below the bottom collides with none of them. |
| Layout.RandomInCanvas | frontend/src/utils/layout.js:35-36 | A random candidate for a card that fits lies a gap inside every edge of the canvas. |
| Layout.GridInCanvas | frontend/src/utils/layout.js:46-47 | A scanned grid cell lies a gap inside every edge of the canvas. |
| Layout.FindPosition | frontend/src/utils/layout.js:32-58 | The search runs random, then grid, then grow. A random or grid position is free. After a grow step, the card is at (gap, old height + gap) and the height becomes y + height + gap. The draw cursor advances by two per attempt. For a card whose height fits the initial canvas, the height never decreases and the card ends a gap above the (possibly grown) bottom. If the card also fits the width, it lies a gap inside every edge. |
| Layout.PlaceStep | frontend/src/utils/layout.js:61-75 | Placing one more card keeps every pair of placed cards apart, and every card still ends a gap above the (possibly grown) bottom. No assumption about widths is needed. |
| Layout.EdgesStep | frontend/src/utils/layout.js:61-75 | Placing a card inside the canvas keeps every card inside the left, right and top edges. |
| Layout.SeparatedFromPlacement | frontend/src/utils/layout.js:66 | Cards that are pairwise apart in placement order are pairwise apart at their original indices. |
| Layout.PlacedInside | frontend/src/utils/layout.js:66 | The edge guarantee carries over from placement order to original indices. |
| Layout.CalculateMasonryLayout | frontend/src/utils/layout.js:2-78 | The result holds one position per card, stored at the card's own index. When every card height lies between 0 and 1960 (the height plus two gaps fits the initial 2000), no two cards collide, whatever their widths. When every card also fits the canvas width, every card lies a gap inside the left, right and top edges. |
| Keywords.WordLength | frontend/src/utils/keywords.js:5 | The leading run of non-white-space characters is maximal. |
| Keywords.Words | frontend/src/utils/keywords.js:5 | The words are non-empty and contain no white space. Their exact split is fixed by `Keywords.WordsJoin`, `Keywords.WordsSplit` and `Keywords.WordsOfWord`. |
| Keywords.WordsJoin | frontend/src/utils/keywords.js:5 | Only white space is dropped: the words, joined, are the non-white-space characters of the text in order. |
| Keywords.WordsSplit | frontend/src/utils/keywords.js:5 | White space separates words: cutting the text at a white-space character gives the words of the part before followed by the words of the part after. |
| Keywords.WordsOfWord | frontend/src/utils/keywords.js:5 | A non-empty run without white space is exactly one word. |
| Keywords.WordsOccurInText | frontend/src/utils/keywords.js:5 | Every word occurs in the text. |
| Keywords.Clean | frontend/src/utils/keywords.js:10 | The cleaned word holds only `\w` characters, is no longer than the word, and keeps every `\w` character of the word. Order and multiplicity are fixed by `Keywords.CleanAppend` and `Keywords.CleanChar`. |
| Keywords.CleanAppend | frontend/src/utils/keywords.js:10 | Cleaning works character by character: cleaning a concatenation concatenates the cleaned parts, so order and repetitions are kept. |
| Keywords.CleanChar | frontend/src/utils/keywords.js:10 | One character is kept when it is a `\w` character and dropped otherwise. |
| Keywords.NormalizeChars | frontend/src/utils/keywords.js:10-12 | A word's keyword is made of lower-case word characters and is as long as the cleaned word. |
| Keywords.CandidatesProps | frontend/src/utils/keywords.js:9-14 | Every candidate is longer than three characters and made of lower-case word characters. A string is a candidate exactly when it is the normalised form of some word whose cleaned form is longer than three. |
| Keywords.DedupMembers | frontend/src/utils/keywords.js:6-16 | The Set keeps exactly the elements that were added. |
| Keywords.DedupDistinct | frontend/src/utils/keywords.js:6-16 | The Set's elements are pairwise distinct. |
| Keywords.DedupOrder | frontend/src/utils/keywords.js:6-16 | `Array.from` of the Set lists elements in order of first insertion. |
| Keywords.KeywordListProps | frontend/src/utils/keywords.js:9-16 | The de-duplicated candidates are long enough, lower-case, distinct, and exactly the keywords of the words. |
| Keywords.ExtractKeywords | frontend/src/utils/keywords.js:2-17 | Blank text gives no keywords. Otherwise the method gives the de-duplicated candidates of the words, in order of first appearance. Each is longer than three, made of lower-case word characters, and distinct, and a keyword is in the result exactly when some word stands for it. |
| Keywords.CollectKeywords | frontend/src/utils/keywords.js:9-14 | The `forEach` that fills the Set produces the de-duplicated candidates. |
| Keywords.BlankHasNoWords | frontend/src/utils/keywords.js:3 | An all-white-space text has no words. |
| Keywords.KeywordColor | frontend/src/utils/keywords.js:20-29 | The colour is always one of the two colours. The empty keyword gets `#CEE8D7`. |
| Keywords.CodeSumParity | frontend/src/utils/keywords.js:24-26 | The hash has the same parity as the number of characters with an even code. |
| Keywords.ColorByEvenCodes | frontend/src/utils/keywords.js:28 | A non-empty keyword is `#CEE8D7` exactly when it has an even number of even-coded characters, and `#CAE2FF` otherwise. This is an independent description of the hash's parity. |
| Gallery.PickIndex | frontend/src/Writer.js:63 | `Math.floor(draw * length)` is a valid index, and it is the floor of the scaled draw. |
| Gallery.Pick | frontend/src/Writer.js:60-73 | An error or an empty list yields no image. Otherwise the pick is one of the returned photos, tagged with the keyword and its colour. |
| Gallery.PicksCount | frontend/src/Writer.js:77-78 | The flattened picks hold one image per keyword with a non-empty result, so there are at most as many as keywords. |
| Gallery.PicksTagged | frontend/src/Writer.js:65-69 | Every picked image carries one of the searched keywords and that keyword's colour. |
| Writer.DedupByIdDistinct | frontend/src/Writer.js:82-88 | The committed images have pairwise distinct ids. |
| Writer.DedupByIdIds | frontend/src/Writer.js:82-88 | Every id of the flattened picks is kept, and no other id appears. |
| Writer.DedupByIdFirst | frontend/src/Writer.js:84-85 | Each kept image is the first image of its id in the input. |
| Writer.DedupByIdOrder | frontend/src/Writer.js:88 | Kept images are in order of the first appearance of their ids. |
| Writer.UniqueImages | frontend/src/Writer.js:82-88 | The `uniqueImagesMap` loop computes the id-de-duplication of its input. |
| Writer.KeywordColors | frontend/src/Writer.js:96-99 | The new map has exactly the keywords as keys, except `__proto__`, which a plain object does not store. Each key maps to its colour. |
| Writer.MergeColors | frontend/src/Writer.js:100-103 | The merged map has the old keys and the keywords other than `__proto__`. Those keywords get their colours, and every other key keeps its old value. |
| Writer.PaddingOr | frontend/src/Writer.js:208-209 | A missing or zero padding is 12 (FallbackPadding). A non-zero padding is kept, and the result is never zero. |
| Writer.FocusPosition | frontend/src/Writer.js:212-232 | The pan position puts the image's centre, scaled by 1.8, exactly at the container's centre. |
| Writer.KeywordIndex | frontend/src/Writer.js:275 | `findIndex` returns the first image with the keyword, or -1 exactly when there is none. |
| Writer.ImageAt | frontend/src/Writer.js:256-270 | `images[i]` is present exactly for an index in range. |
| Writer.WriterState.constructor | frontend/src/Writer.js:26-39 | The initial screen state: empty text and gallery, scale 1 at (0, 0), no selection (index -1), empty maps. |
| Writer.WriterState.ApplySearch | frontend/src/Writer.js:44-127 | An empty keyword list clears the images and raises no notification. With no hits, the images are cleared and the info notice "No images found for these keywords" is set, with nothing else changed. Otherwise the images are the id-de-duplicated picks, sizes and positions are reset, the colour map is merged, and the last keyword becomes current. Searching always ends false. |
| Writer.WriterState.CommitImages | frontend/src/Writer.js:80-108 | The success branch: de-duplicated images, cleared sizes and positions, merged colours, and the last keyword made current. |
| Writer.WriterState.NavigateToImage | frontend/src/Writer.js:187-244 | An index out of range or without a position changes nothing, and so does a gallery container or inner canvas that is not mounted. Otherwise the scale becomes 1.8 and the image centre, with a missing size taken as 300 by 400, lands at the container centre (`FocusedOn`). |
| Writer.WriterState.HandleImageClick | frontend/src/Writer.js:144-149 | The clicked image and index are selected. If the index has a position and the gallery is mounted, the view is zoomed to 1.8 and centred on that image (`FocusedOn`). Otherwise the view does not move. |
| Writer.WriterState.HandleCloseViewer | frontend/src/Writer.js:247-253 | Closing the viewer clears the selection and resets the zoom to scale 1 at (0, 0). |
| Writer.WriterState.HandlePrevious | frontend/src/Writer.js:256-262 | A positive index steps back by exactly one and selects the image there. Otherwise nothing changes. |
| Writer.WriterState.HandleNext | frontend/src/Writer.js:264-270 | An index before the last steps forward by exactly one and selects the image there. Otherwise nothing changes. |
| Writer.WriterState.HandleKeywordClick | frontend/src/Writer.js:273-279 | An empty keyword, one without an image, or an unmounted gallery changes nothing. Otherwise the view is zoomed to 1.8 and centred on the first image of that keyword (`FocusedOn` at `KeywordIndex`). |
| Query.FetchImagesByKeywords | frontend/src/hooks/useKeywordImagesQuery.js:16-19 | A missing or empty keyword list returns nothing. |
| Query.PresentInOrder | frontend/src/hooks/useKeywordImagesQuery.js:23-56 | The settled, non-null searches are already ordered by keyword index, and their images are the per-keyword picks. |
| Query.FetchIsPicks | frontend/src/hooks/useKeywordImagesQuery.js:16-68 | The hook returns exactly the per-keyword picks in keyword order, with no de-duplication. There is one image per keyword whose search found at least one photo, so never more than the number of keywords. |
| Query.FetchTagged | frontend/src/hooks/useKeywordImagesQuery.js:30-41 | Every returned image carries one of the searched keywords and that keyword's colour. |
| Highlight.FindFrom | frontend/src/components/HighlightedTextEditor.js:92 | A found match starts at or after `lastIndex` and fits in the text. |
| Highlight.FindFromLeftmost | frontend/src/components/HighlightedTextEditor.js:87-92 | `exec` returns the leftmost whole-word, case-insensitive occurrence from `lastIndex` on. Finding nothing means there is no such occurrence at all. |
| Highlight.ExecAll | frontend/src/components/HighlightedTextEditor.js:91-99 | The `exec` loop for one key reports every successive hit, each search resuming after the previous hit. |
| Highlight.FindMatches | frontend/src/components/HighlightedTextEditor.js:85-100 | The hits of every key are collected, key after key. |
| Highlight.KeyMatchesValid | frontend/src/components/HighlightedTextEditor.js:87-98 | Every reported hit of a key is a whole-word, case-insensitive occurrence of that key, and its `original` is the covered text. |
| Highlight.AllMatchesValid | frontend/src/components/HighlightedTextEditor.js:86-100 | Every collected hit is a genuine occurrence of one of the keys. |
| Highlight.RemoveOverlaps | frontend/src/components/HighlightedTextEditor.js:106-114 | The thinning loop keeps a hit exactly when it overlaps no hit kept before it. |
| Highlight.KeepFirstChained | frontend/src/components/HighlightedTextEditor.js:103-114 | On hits sorted by start, the kept hits are pairwise disjoint and strictly increasing in start. |
| Highlight.KeepFirstDropped | frontend/src/components/HighlightedTextEditor.js:107-113 | Every dropped hit overlaps a kept one, so the earliest of an overlapping group wins. |
| Highlight.KeptValid | frontend/src/components/HighlightedTextEditor.js:86-114 | Every highlighted hit is a whole-word, case-insensitive occurrence of a key. |
| Highlight.KeptCovers | frontend/src/components/HighlightedTextEditor.js:103-114 | The highlighted hits lie inside the text and follow one another without overlap. |
| Highlight.KeptDropped | frontend/src/components/HighlightedTextEditor.js:103-114 | Every candidate hit is either highlighted or overlaps a highlighted one. |
| Highlight.EmptyTextNoMatches | frontend/src/components/HighlightedTextEditor.js:78 | The empty text has no hits. |
| Highlight.BuildParts | frontend/src/components/HighlightedTextEditor.js:117-141 | The parts join back to the text, and no plain part is empty. The keyword parts are exactly the kept hits in order, coloured from the map. |
| Highlight.RenderHighlightedText | frontend/src/components/HighlightedTextEditor.js:77-144 | An empty value gives no parts. Otherwise the parts join back to the value and are never empty, no plain part is empty, and the keyword parts are the highlighted hits, each coloured `keywordsMap[keyword]`. |
| Highlight.ReplaceAll | frontend/src/components/HighlightedTextEditor.js:155-157 | A global replace removes the character when the replacement lacks it, and introduces no character found in neither the input nor the replacement. `Highlight.ReplaceAllAppend` and `Highlight.ReplaceAllOne` fix it exactly. |
| Highlight.ReplaceAllAppend | frontend/src/components/HighlightedTextEditor.js:155-157 | The replace works character by character: replacing in a concatenation concatenates the replaced parts. |
| Highlight.ReplaceAllOne | frontend/src/components/HighlightedTextEditor.js:155-157 | One character becomes the replacement when it is the replaced character, and stays otherwise. |
| Highlight.EscapeHtml | frontend/src/components/HighlightedTextEditor.js:154-157 | The escaped plain text contains no raw `<` or `>`. |
| Highlight.EscapeChainPerChar | frontend/src/components/HighlightedTextEditor.js:155-157 | Because `&` is replaced first, no entity is escaped twice: the chain equals escaping each character on its own. |
| Highlight.EscapeRoundTrip | frontend/src/components/HighlightedTextEditor.js:154-157 | Unescaping the escaped text restores it. |
| Highlight.FindCaretTarget | frontend/src/components/HighlightedTextEditor.js:201-216 | The walk finds a node exactly when the saved offset is within the text. It picks the first node whose end reaches the offset, every earlier boundary lies before the offset, and the target offset lies within the node and adds up to the saved offset. |
| Highlight.RestoreCaret | frontend/src/components/HighlightedTextEditor.js:218-245 | With any text node present, the caret lands inside a node at the saved offset, clipped to the end of the text, and `Math.min` never clips. Without nodes, it stays as it was. |
| Highlight.NodeLengthsSum | frontend/src/components/HighlightedTextEditor.js:147-159 | The text nodes of the rendered parts hold exactly as many characters as the joined parts. |
| Text.Trim | backend/server.js:22 | `trim()` yields an infix of the input with no white space at either end, surrounded in the input only by white space (`TrimmedAt`). It is empty exactly when the input is all white space. |
| Text.TrimmedUnique | backend/server.js:22 | At most one string is the input with its end white space removed, so `trim()` removes exactly that white space and nothing else. |
| Text.Lower | frontend/src/utils/keywords.js:12 | Lower-casing keeps the length and maps each character by ASCII lower-casing. |
| Text.BeforeFirst | frontend/src/components/DrawingCanvas.js:313 | `split(",")[0]` is the longest prefix without a comma. |
| Text.ContainsChar | frontend/src/components/ImageCard.js:119 | `includes("?")` holds exactly when the character occurs. |
| Common.SortPermutes | frontend/src/utils/layout.js:19 | The sort only reorders its input. |
| Common.SortSorted | frontend/src/components/HighlightedTextEditor.js:103 | The sort's result is ascending by the comparator's key. |
| Common.SortStable | frontend/src/utils/layout.js:19 | Elements with equal keys keep their relative order. |
| Common.SortKeepsSorted | frontend/src/hooks/useKeywordImagesQuery.js:57 | An already ordered input is left as it is. |
| Common.Or | backend/server.js:49-50 | A non-empty string is kept; an empty or missing one gives the fallback, so a non-empty fallback never yields an empty string. |
| Common.OrNull | backend/server.js:51-53 | An empty or missing string becomes `null`; a non-empty one is kept as it is. |
| Attribution.Separator | backend/server.js:63 | The separator is `&` exactly when the link already has a `?`, and `?` otherwise. |
| Attribution.WithReferral | backend/server.js:62-65 | The normalised link always contains the marker and starts with the original link. It equals the link exactly when the marker was already there, and otherwise adds the separator and the referral query once. |
| Attribution.WithReferralIdempotent | backend/server.js:62-65 | Normalising twice is normalising once. |
| Attribution.ProfileFor | backend/server.js:57-59 | The synthesised profile starts with the profile base and the username, followed by `?`. It already carries the marker, so normalising leaves it unchanged. |
| Server.SanitizePhoto | backend/server.js:46-67 | The record is the sanitised form of the photo (`SanitizedFrom`): it keeps the id and URL. The description falls back from alt to description to "Unsplash image", and the name falls back to "Unknown". An empty username or location becomes `null`. A profile exists exactly when a profile or a username was given: it is synthesised from the username when missing, and always carries the marker. |
| Server.SanitizedUnique | backend/server.js:46-67 | The sanitising rules fix every field of the record: two records sanitised from the same photo are equal. |
| Server.SanitizedFields | backend/server.js:49-65 | A sanitised record never has an empty description or name, and its profile, when present, carries the marker. |
| Server.SanitizeAll | backend/server.js:45-68 | There is one record per upstream result, in the same order, each the sanitised form of its result, and every profile carries the marker. |
| Server.KeywordMissing | backend/server.js:22 | A keyword is missing exactly when it is absent or all white space. |
| Server.ErrorMessage | backend/server.js:77-84 | 403, 401 and 429 get their own messages. Any other status gets the default message. |
| Server.HandleImages | backend/server.js:18-97 | A missing keyword gives 400 "Keyword is required". A missing key gives 500. An answer gives exactly one record per result, in order, each the sanitised form of its result. An HTTP error passes its status through with `ErrorMessage` of that status, and any other failure is 500 "Internal server error". |
| Server.HandleTrackDownload | backend/server.js:100-134 | A missing location gives 400. A missing key gives 500. The ping succeeds exactly when it is answered. An HTTP error passes its status through, and any other failure is 500. |
| ImageCard.FitSize | frontend/src/components/ImageCard.js:20-33 | The fitted size lies within 300 by 400 with positive sides and keeps the image's aspect ratio. Its width is 300 or its height is 400. |
| ImageCard.FitUnique | frontend/src/components/ImageCard.js:23-33 | The three properties of the fit determine it: two sizes in the 300 by 400 box with the same proportions, each 300 wide or 400 high, are equal. |
| ImageCard.ReportSize | frontend/src/components/ImageCard.js:16-47 | A size is reported exactly when none is known and someone listens. A failed load reports 300 by 400. A loaded image reports a size in the box that keeps its aspect ratio and is 300 wide or 400 high, which fixes the size (`ImageCard.FitUnique`). |
| ImageCard.CardSizesFit | frontend/src/components/ImageCard.js:23-43 | Every size a card can report fits each canvas width the layout chooses, so the layout's separation guarantee applies to the gallery. |
| ImageCard.PhotographerHref | frontend/src/components/ImageCard.js:113-121 | The link is the profile when it has the marker. Otherwise it is the profile plus the separator and the referral query, added once: the same rule as the server. |
| ImageCard.ServedProfileUnchanged | frontend/src/components/ImageCard.js:115-118 | A profile the server already normalised is linked unchanged. |
| ImageViewer.JsRem | frontend/src/components/ImageViewer.js:58-72 | JavaScript's `%` takes the sign of the dividend: the remainder lies in [0, n) for a non-negative dividend and in (-n, 0] for a negative one. A dividend in [0, n) is returned as it is, and one in [n, 2n) loses one n. |
| ImageViewer.StepsAreCyclic | frontend/src/components/ImageViewer.js:58-72 | From a valid index, previous and next step by one and wrap around the ends. |
| ImageViewer.PreviousUndoesNext | frontend/src/components/ImageViewer.js:58-72 | Next after previous, and previous after next, return to the same valid index. |
| ImageViewer.StepsStayInRange | frontend/src/components/ImageViewer.js:58-72 | From any index of -1 or more, both buttons yield an index in range. |
| ImageViewer.EnabledStepMoves | frontend/src/components/ImageViewer.js:62-75 | With the buttons enabled (two or more images), each click moves off the current image. |
| ImageViewer.StepClick | frontend/src/components/ImageViewer.js:55-74 | A click reports an index exactly when there is a listener and at least one image, and the index is then in range. |
| ImageViewer.EffectiveKeyword | frontend/src/components/ImageViewer.js:22 | The shown keyword is the image's keyword when it is non-empty, and exactly "N/A" (NoKeyword) when it is empty; never empty. |
| ImageViewer.EffectiveColor | frontend/src/components/ImageViewer.js:23-24 | The chip colour is the image's own colour when set, and otherwise exactly the colour KeywordColor gives its keyword (whose parity rule ColorByEvenCodes states), so always one of the two keyword colours or the image's own. |
| ImageViewer.GalleryImageColor | frontend/src/components/ImageViewer.js:23-24 | A gallery image shows its keyword's colour. |
| ImageViewer.KeywordChipClick | frontend/src/components/ImageViewer.js:93-97 | The chip reports its keyword exactly when the keyword is real (not empty, not "N/A") and someone listens. |
| ImageViewer.ExtractedKeywordClickable | frontend/src/components/ImageViewer.js:93-97 | An extracted keyword is never taken for the placeholder, so its chip always reports it. |
| ImageViewer.Title | frontend/src/components/ImageViewer.js:116 | The title is the description when non-empty, and exactly "Untitled" (NoTitle) when it is empty; never empty. |
| ImageViewer.ArtistName | frontend/src/components/ImageViewer.js:154-158 | The artist is the photographer's name when non-empty, and exactly "Unknown" (NoName) when it is empty; never empty. |
| ImageViewer.ProfileUrl | frontend/src/components/ImageViewer.js:129-143 | There is a link exactly when a profile or a username is present. An existing profile is normalised, otherwise the link is synthesised from the username, and every link carries the marker. |
| ImageViewer.ServedProfileLinked | frontend/src/components/ImageViewer.js:137-143 | A profile the server already normalised is linked unchanged. |
| Drawing.SliceEnd | frontend/src/components/DrawingCanvas.js:161 | `slice(0, end)` keeps a prefix of length `end`, clipped to the array. |
| Drawing.DrawingHistory.constructor | frontend/src/components/DrawingCanvas.js:24-25 | The history starts empty at index -1. |
| Drawing.DrawingHistory.Reset | frontend/src/components/DrawingCanvas.js:33-39 | Mounting empties the history and sets the index to -1. |
| Drawing.DrawingHistory.Initialize | frontend/src/components/DrawingCanvas.js:91-99 | An empty history with a canvas gets the first snapshot at index 0. Otherwise nothing changes. |
| Drawing.DrawingHistory.Save | frontend/src/components/DrawingCanvas.js:155-166 | The entries up to the current one are kept, the new snapshot follows and becomes current, and the redo tail is dropped. The index stays valid. |
| Drawing.DrawingHistory.Undo | frontend/src/components/DrawingCanvas.js:373-390 | It acts exactly when the index is positive and a canvas exists. It steps back by one, redraws the snapshot there, and leaves the history alone. |
| Drawing.DrawingHistory.Redo | frontend/src/components/DrawingCanvas.js:392-409 | It acts exactly when the index is before the last and a canvas exists. It steps forward by one, redraws that snapshot, and leaves the history alone. |
| Drawing.UndoThenRedo | frontend/src/components/DrawingCanvas.js:373-409 | Undo followed by redo returns to the same index and history. |
| Drawing.HasContent | frontend/src/components/DrawingCanvas.js:240-251 | There is content exactly when some pixel (every fourth byte) is visible and not pure white. |
| Drawing.TopLabels | frontend/src/components/DrawingCanvas.js:304 | At most the five best labels are kept, in order. |
| Drawing.MainKeywordNoComma | frontend/src/components/DrawingCanvas.js:313 | The main keyword is the first comma-separated part of the label, so it holds no comma. |
| Drawing.MainKeywordTrimmed | frontend/src/components/DrawingCanvas.js:313 | The main keyword is no longer than the label and has no white space at either end. |
| Drawing.MainKeywordLowerCase | frontend/src/components/DrawingCanvas.js:313 | The main keyword holds no capital letter. |
| Drawing.MainKeywordIsFirstPart | frontend/src/components/DrawingCanvas.js:313 | The main keyword is the lower-cased first comma-separated part of the label, with exactly the white space at its ends removed. |
| Drawing.Recognized | frontend/src/components/DrawingCanvas.js:311-315 | A keyword is handed on exactly when there is a label and a listener. It is the main keyword of the best label. |
| Store.ResolveMap | frontend/src/store/writerStore.js:47-72 | A falsy map argument becomes `{}`. Otherwise the value is used, or the function is applied to the current map. |
| Store.WriterStore.constructor | frontend/src/store/writerStore.js:3-73 | The initial store: empty text, no images, scale 1 at (0, 0), no selection (index -1), empty maps, all flags off. The selection is in sync. |
| Store.WriterStore.SetText | frontend/src/store/writerStore.js:5 | Only the text changes, to the given value. |
| Store.WriterStore.SetImages | frontend/src/store/writerStore.js:8 | Only the images change, to the given value. |
| Store.WriterStore.SetIsSearching | frontend/src/store/writerStore.js:11 | Only the searching flag changes. |
| Store.WriterStore.SetNotification | frontend/src/store/writerStore.js:14 | Only the notification changes. |
| Store.WriterStore.SetPanScale | frontend/src/store/writerStore.js:17-21 | The scale becomes the value, or the updater applied to the old scale. Nothing else changes. |
| Store.WriterStore.SetPanPosition | frontend/src/store/writerStore.js:24-28 | The position becomes the value, or the updater applied to the old position. Nothing else changes. |
| Store.WriterStore.SetSelectedImage | frontend/src/store/writerStore.js:32-33 | The image and index are stored as given, with a missing index stored as -1. The selection is in sync exactly when the image is the one at that index. |
| Store.WriterStore.SetSelectedImageIndex | frontend/src/store/writerStore.js:34-41 | The index is always stored. The image is the gallery image there when the index is in range and `null` otherwise, so the selection is in sync. |
| Store.WriterStore.SetCurrentKeyword | frontend/src/store/writerStore.js:44 | Only the current keyword changes. |
| Store.WriterStore.SetKeywordsMap | frontend/src/store/writerStore.js:47-53 | A falsy argument gives `{}`. A value replaces the map, and a function updates it. Nothing else changes. |
| Store.WriterStore.SetShowExamples | frontend/src/store/writerStore.js:56 | Only that flag changes. |
| Store.WriterStore.SetShowPDFPreview | frontend/src/store/writerStore.js:59 | Only that flag changes. |
| Store.WriterStore.SetShowDrawingCanvas | frontend/src/store/writerStore.js:62 | Only that flag changes. |
| Store.WriterStore.SetImagePositions | frontend/src/store/writerStore.js:65 | Only the positions change. |
| Store.WriterStore.SetImageSizes | frontend/src/store/writerStore.js:68-72 | A falsy argument gives `{}`. A value replaces the sizes, and a function updates them. Nothing else changes. |
| Store.ReplacingImagesKeepsSelection | frontend/src/store/writerStore.js:8-41 | Selecting by index and then replacing the gallery leaves the old image selected: the store does not re-synchronise. |

## Left out

- The network: axios requests, Express routing, CORS, `listen`, and the Unsplash upstream. Each answer or failure is an input value.
- `fetchWithCache` (frontend/src/hooks/useKeywordImagesQuery.js:70-81): it is a React Query cache around `fetchImagesByKeywords`, which is modelled.
- The 800 ms debounce and every `setTimeout`: the 3-second notification clear, the 100 ms delay before centring, and the 500 ms auto-recognition delay. The search commits unconditionally, with no guard against stale results, and the model promises none.
- React, JSX, framer-motion, and the DOM. This covers `contentEditable`, `innerText`/`innerHTML`, selection ranges, the tree walker, `getBoundingClientRect` and `getComputedStyle`. Only the offset search over text-node lengths and the values read from the DOM are modelled.
- `Highlight.RenderHighlightedText`: the HTML `<span>` string built for a keyword part (frontend/src/components/HighlightedTextEditor.js:150) and the save-offset measurement (lines 162-175) are not modelled. They are string formatting and DOM reads.
- Highlight.SameIgnoringCase: the `i` flag is modelled as ASCII case folding. This is exact for keys made of ASCII word characters, which `extractKeywords` produces. Unicode case folding of other keys is not modelled.
- Text.Lower: `toLowerCase()` is modelled on ASCII letters only. The cleaned words it is applied to hold only ASCII characters, but a classifier label with other letters is not lower-cased beyond ASCII.
- Strings are sequences of characters, not UTF-16 code units. Lengths and offsets of characters outside the Basic Multilingual Plane are not modelled.
- Floating point: layout, size-fit and centring arithmetic are exact reals. The rounding of `Math.floor(Math.random() * n)` is exact.
- ImageCard.FitSize: an image of zero natural width or height, which would give NaN or infinite sizes in the source, is excluded by its precondition.
- Server.SanitizePhoto: a result without `urls` makes the source throw and answer 500. The model requires `urls.regular` to be present.
- Server.HandleImages: a `keyword` query given as an array is not modelled. The keyword is an optional string.
- `handleKeywordClickInText` (frontend/src/Writer.js:282-289) has the same body as `handleKeywordClick`, which is modelled as `Writer.WriterState.HandleKeywordClick`.
- `handleImageSizeLoad` and the effect that recomputes the layout (frontend/src/Writer.js:151-183) are outside the modelled lines. They call `calculateMasonryLayout`, which is modelled.
- The ML5 classifier: script loading, `classify` and the confidence formatting. Its labels are an input of `Drawing.Recognized`.
- Drawing.DrawingHistory.Undo and Drawing.DrawingHistory.Redo: the new index is set in the image's `onload` callback in the source. The model applies it at once, without the asynchronous redraw.
- Drawing, the brush, colour pickers, saving the drawing, and the recognition error messages are UI and are not modelled.
- Store.WriterStore: the zustand subscription mechanism is not modelled. Each setter is a method that changes its own fields.
- Writer.WriterState.ApplySearch: the notification for the outer `catch` (frontend/src/Writer.js:117-123) is not modelled, because that path cannot run.
- Layout.CalculateMasonryLayout: separation is proved only for cards whose height plus two gaps fits the initial height of 2000. A taller card can stick out below the canvas, so the grow step could collide with it. The edge bounds also need every card to fit the canvas width, because a random candidate for a wider card can start left of the gap. Every size a card reports meets both conditions (`ImageCard.CardSizesFit`).
