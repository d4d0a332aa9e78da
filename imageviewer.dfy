/** The side panel showing one gallery image: the previous/next buttons that
    step cyclically through the gallery, the keyword chip with its colour,
    and the photographer link. */
module ImageViewer {
  import opened Common
  import opened Text
  import opened Attribution
  import opened Gallery
  import Keywords

  const NoKeyword: string := "N/A"
  const NoTitle: string := "Untitled"
  const NoName: string := "Unknown"

  /** JavaScript's `a % n`: the remainder takes the sign of `a`. */
  function JsRem(a: int, n: int): (r: int)
    requires n > 0
    ensures a >= 0 ==> 0 <= r < n
    ensures a < 0 ==> -n < r <= 0
    ensures 0 <= a < n ==> r == a
    ensures n <= a < 2 * n ==> r == a - n
  {
    ModSmall(a, n);
    if a >= 0 then a % n else -((-a) % n)
  }

  lemma ModSmall(a: int, n: int)
    requires n > 0
    ensures 0 <= a < n ==> a % n == a
    ensures n <= a < 2 * n ==> a % n == a - n
  {
    if n <= a < 2 * n {
      assert (a - n) % n == a % n;
    }
  }

  /** `(currentIndex - 1 + images.length) % images.length` */
  function PreviousIndex(current: int, n: nat): int
    requires n > 0
  {
    JsRem(current - 1 + n, n)
  }

  /** `(currentIndex + 1) % images.length` */
  function NextIndex(current: int, n: nat): int
    requires n > 0
  {
    JsRem(current + 1, n)
  }

  /** From a valid index the buttons wrap around the ends: previous of the
      first is the last, next of the last is the first, and otherwise they
      step by one. */
  lemma StepsAreCyclic(current: int, n: nat)
    requires 0 <= current < n
    ensures PreviousIndex(current, n) == if current == 0 then n - 1 else current - 1
    ensures NextIndex(current, n) == if current == n - 1 then 0 else current + 1
  {
  }

  /** The two buttons undo each other on a valid index. */
  lemma PreviousUndoesNext(current: int, n: nat)
    requires 0 <= current < n
    ensures 0 <= NextIndex(current, n) < n && PreviousIndex(NextIndex(current, n), n) == current
    ensures 0 <= PreviousIndex(current, n) < n && NextIndex(PreviousIndex(current, n), n) == current
  {
    StepsAreCyclic(current, n);
    StepsAreCyclic(NextIndex(current, n), n);
    StepsAreCyclic(PreviousIndex(current, n), n);
  }

  /** Any index from -1 upwards, including a stale one past the end, steps
      to a valid index. */
  lemma StepsStayInRange(current: int, n: nat)
    requires n > 0 && -1 <= current
    ensures 0 <= PreviousIndex(current, n) < n
    ensures 0 <= NextIndex(current, n) < n
  {
  }

  /** Both buttons are disabled without at least two images. */
  predicate NavigationDisabled(images: Option<seq<Image>>) {
    images.None? || |images.value| <= 1
  }

  /** With the buttons enabled, a click on either moves off the current
      image. */
  lemma EnabledStepMoves(current: int, images: Option<seq<Image>>)
    requires !NavigationDisabled(images) && 0 <= current < |images.value|
    ensures PreviousIndex(current, |images.value|) != current
    ensures NextIndex(current, |images.value|) != current
  {
    StepsAreCyclic(current, |images.value|);
  }

  /** The index reported by a click on Previous (`forward` false) or Next
      (`forward` true): nothing without a listener or without images. */
  function StepClick(forward: bool, listening: bool, images: Option<seq<Image>>, current: int): (r: Option<int>)
    ensures r.Some? <==> listening && images.Some? && |images.value| > 0
    ensures r.Some? && -1 <= current ==> 0 <= r.value < |images.value|
  {
    if !listening || images.None? || |images.value| == 0 then None
    else
      var n := |images.value|;
      var index := if forward then NextIndex(current, n) else PreviousIndex(current, n);
      assert -1 <= current ==> 0 <= index < n by {
        if -1 <= current {
          StepsStayInRange(current, n);
        }
      }
      Some(index)
  }

  /** `image.keyword || "N/A"` */
  function EffectiveKeyword(keyword: string): (r: string)
    ensures r != ""
    ensures keyword != "" ==> r == keyword
    ensures keyword == "" ==> r == NoKeyword
  {
    if keyword != "" then keyword else NoKeyword
  }

  /** `image.keywordColor || getKeywordColor(image.keyword || "")` */
  function EffectiveColor(keyword: string, keywordColor: string): (r: string)
    ensures keywordColor != "" ==> r == keywordColor
    ensures keywordColor == "" ==> r == Keywords.KeywordColor(keyword)
    ensures r == Keywords.DefaultColor || r == Keywords.AltColor || r == keywordColor
  {
    if keywordColor != "" then keywordColor else Keywords.KeywordColor(keyword)
  }

  /** A gallery image shows its keyword's own colour. */
  lemma GalleryImageColor(image: Image)
    requires image.keywordColor == Keywords.KeywordColor(image.keyword)
    ensures EffectiveColor(image.keyword, image.keywordColor) == Keywords.KeywordColor(image.keyword)
  {
  }

  /** The keyword chip reports its keyword only when there is a real one
      and a listener. */
  function KeywordChipClick(keyword: string, listening: bool): (r: Option<string>)
    ensures r.Some? <==> keyword != "" && keyword != NoKeyword && listening
    ensures r.Some? ==> r.value == keyword
  {
    var effective := EffectiveKeyword(keyword);
    if effective != "" && effective != NoKeyword && listening then Some(effective) else None
  }

  /** An extracted keyword (only letters, digits and underscores) is never
      mistaken for the placeholder, so its chip always reports it. */
  lemma ExtractedKeywordClickable(keyword: string)
    requires keyword != "" && forall i :: 0 <= i < |keyword| ==> Keywords.IsKeywordChar(keyword[i])
    ensures KeywordChipClick(keyword, true) == Some(keyword)
  {
    assert !Keywords.IsKeywordChar(NoKeyword[1]);
  }

  /** `image.alt_description || "Untitled"` */
  function Title(photo: Photo): (r: string)
    ensures r != ""
    ensures photo.altDescription != "" ==> r == photo.altDescription
    ensures photo.altDescription == "" ==> r == NoTitle
  {
    if photo.altDescription != "" then photo.altDescription else NoTitle
  }

  /** `image.photographer_name || "Unknown"` */
  function ArtistName(photo: Photo): (r: string)
    ensures r != ""
    ensures photo.photographerName != "" ==> r == photo.photographerName
    ensures photo.photographerName == "" ==> r == NoName
  {
    if photo.photographerName != "" then photo.photographerName else NoName
  }

  /** The artist link: the stored profile, else one synthesised from the
      username, else none; a link without the referral marker gets it. */
  function ProfileUrl(profile: Option<string>, username: Option<string>): (r: Option<string>)
    ensures r.Some? <==> Truthy(profile) || Truthy(username)
    ensures r.Some? ==> Contains(r.value, Marker)
    ensures Truthy(profile) ==> r == Some(WithReferral(profile.value))
    ensures !Truthy(profile) && Truthy(username) ==> r == Some(ProfileFor(username.value))
  {
    var profileUrl :=
      if Truthy(profile) then profile
      else if Truthy(username) then Some(ProfileBase + username.value + "?" + ReferralQuery)
      else None;
    if Truthy(profileUrl) then
      var url := profileUrl.value;
      ContainsChar(url, '?');
      var finalUrl := if Contains(url, Marker) then url else url + [(if Contains(url, "?") then '&' else '?')] + ReferralQuery;
      assert finalUrl == WithReferral(url);
      Some(finalUrl)
    else None
  }

  /** A profile the server already normalised is linked unchanged. */
  lemma ServedProfileLinked(profile: string, username: Option<string>)
    requires Contains(profile, Marker)
    ensures ProfileUrl(Some(profile), username) == Some(profile)
  {
  }
}
