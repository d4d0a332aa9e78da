/** The backend's two routes. `/api/images` validates the keyword and the
    configured access key, asks the photo service for a keyword's photos and
    returns them sanitised; `/api/track-download` forwards a download ping.
    The HTTP exchange with the photo service is a parameter: what it
    answered, or how it failed. */
module Server {
  import opened Common
  import opened Text
  import opened Attribution
  import opened Gallery

  const KeywordRequired: string := "Keyword is required"
  const KeyNotConfigured: string := "Unsplash API key not configured"
  const FetchFailed: string := "Failed to fetch images from Unsplash"
  const AccessDenied: string := "Access denied. Please check your Unsplash API key and permissions."
  const Unauthorized: string := "Unauthorized. Invalid Unsplash API key."
  const RateLimited: string := "Rate limit exceeded. Please try again later."
  const InternalError: string := "Internal server error"
  const LocationRequired: string := "download_location is required"
  const TrackFailed: string := "Failed to track download"
  const AltFallback: string := "Unsplash image"
  const NameFallback: string := "Unknown"

  /** The `user` object of an upstream photo. */
  datatype UpstreamUser = UpstreamUser(name: Option<string>, username: Option<string>, profileHtml: Option<string>)

  /** One upstream search result, as far as the server reads it. */
  datatype UpstreamPhoto = UpstreamPhoto(
    id: string,
    regularUrl: string,
    altDescription: Option<string>,
    description: Option<string>,
    user: Option<UpstreamUser>,
    downloadLocation: Option<string>)

  /** How the upstream call ended: an answer, an HTTP error status, or an
      error without a response. */
  datatype Upstream<T> = Answered(body: T) | HttpFailure(status: int) | NoResponse

  datatype Response =
    | Images(images: seq<Photo>)
    | Tracked
    | Failure(status: int, message: string)

  function UserName(p: UpstreamPhoto): Option<string> {
    if p.user.Some? then p.user.value.name else None
  }

  function UserUsername(p: UpstreamPhoto): Option<string> {
    if p.user.Some? then p.user.value.username else None
  }

  function UserProfile(p: UpstreamPhoto): Option<string> {
    if p.user.Some? then p.user.value.profileHtml else None
  }

  /** `data` is the sanitised record of `p`: the id and URL kept, the
      description falling back from alt to description to "Unsplash image",
      the name to "Unknown", an empty username or location made `null`, and
      a profile link that exists exactly when a link or a username was given,
      synthesised from the username when the link is missing and given the
      referral marker when it lacks one. */
  predicate SanitizedFrom(data: Photo, p: UpstreamPhoto) {
    data.id == p.id && data.url == p.regularUrl
    && data.altDescription == (if Truthy(p.altDescription) then p.altDescription.value
                               else if Truthy(p.description) then p.description.value
                               else AltFallback)
    && data.photographerName == (if Truthy(UserName(p)) then UserName(p).value else NameFallback)
    && (data.photographerUsername.Some? <==> Truthy(UserUsername(p)))
    && (data.photographerUsername.Some? ==> data.photographerUsername == UserUsername(p))
    && (data.downloadLocation.Some? <==> Truthy(p.downloadLocation))
    && (data.downloadLocation.Some? ==> data.downloadLocation == p.downloadLocation)
    && (data.photographerProfile.Some? <==> Truthy(UserProfile(p)) || Truthy(UserUsername(p)))
    && (Truthy(UserProfile(p)) ==> data.photographerProfile == Some(WithReferral(UserProfile(p).value)))
    && (!Truthy(UserProfile(p)) && Truthy(UserUsername(p)) ==>
          data.photographerProfile == Some(ProfileFor(UserUsername(p).value)))
  }

  /** SanitizedFrom pins down every field: at most one record is the
      sanitised form of a photo. */
  lemma SanitizedUnique(a: Photo, b: Photo, p: UpstreamPhoto)
    requires SanitizedFrom(a, p) && SanitizedFrom(b, p)
    ensures a == b
  {
  }

  /** A sanitised record never has an empty description or name, and its
      profile link, when it has one, carries the referral marker. */
  lemma SanitizedFields(data: Photo, p: UpstreamPhoto)
    requires SanitizedFrom(data, p)
    ensures data.altDescription != "" && data.photographerName != ""
    ensures data.photographerProfile.Some? ==> Contains(data.photographerProfile.value, Marker)
  {
  }

  /** The record built for one upstream photo, its profile link synthesised
      from the username when missing and given the referral marker when it
      lacks one. */
  method SanitizePhoto(p: UpstreamPhoto) returns (data: Photo)
    ensures SanitizedFrom(data, p)
    ensures data.photographerProfile.Some? ==> Contains(data.photographerProfile.value, Marker)
  {
    data := Photo(
      p.id,
      p.regularUrl,
      Or(p.altDescription, Or(p.description, AltFallback)),
      Or(UserName(p), NameFallback),
      OrNull(UserUsername(p)),
      OrNull(UserProfile(p)),
      OrNull(p.downloadLocation));
    if !Truthy(data.photographerProfile) && Truthy(data.photographerUsername) {
      data := data.(photographerProfile := Some(ProfileBase + data.photographerUsername.value + "?" + ReferralQuery));
      assert data.photographerProfile.value == ProfileFor(UserUsername(p).value);
    }
    if Truthy(data.photographerProfile) && !Contains(data.photographerProfile.value, Marker) {
      var profile := data.photographerProfile.value;
      data := data.(photographerProfile := Some(profile + [Separator(profile)] + ReferralQuery));
      assert data.photographerProfile.value == WithReferral(profile);
    }
  }

  /** `results.map(...)`: one record per upstream photo, in order, each the
      sanitised form of its photo. */
  method SanitizeAll(results: seq<UpstreamPhoto>) returns (images: seq<Photo>)
    ensures |images| == |results|
    ensures forall i :: 0 <= i < |images| ==> SanitizedFrom(images[i], results[i])
    ensures forall i :: 0 <= i < |images| && images[i].photographerProfile.Some? ==>
      Contains(images[i].photographerProfile.value, Marker)
  {
    images := [];
    for i := 0 to |results|
      invariant |images| == i
      invariant forall j :: 0 <= j < i ==> SanitizedFrom(images[j], results[j])
      invariant forall j :: 0 <= j < i && images[j].photographerProfile.Some? ==>
        Contains(images[j].photographerProfile.value, Marker)
    {
      var data := SanitizePhoto(results[i]);
      images := images + [data];
    }
  }

  /** `!keyword || keyword.trim().length === 0`: missing, empty or all white
      space. */
  function KeywordMissing(keyword: Option<string>): (r: bool)
    ensures r <==> keyword.None? || IsAllWhitespace(keyword.value)
  {
    keyword.None? || |Trim(keyword.value)| == 0
  }

  /** The message for an upstream HTTP error status. */
  function ErrorMessage(status: int): (message: string)
    ensures status == 403 ==> message == AccessDenied
    ensures status == 401 ==> message == Unauthorized
    ensures status == 429 ==> message == RateLimited
    ensures status != 403 && status != 401 && status != 429 ==> message == FetchFailed
  {
    if status == 403 then AccessDenied
    else if status == 401 then Unauthorized
    else if status == 429 then RateLimited
    else FetchFailed
  }

  /** `GET /api/images`: 400 for a missing keyword, 500 without an access
      key, the sanitised photos on success, the upstream status with a
      status-specific message on an HTTP error, and 500 otherwise. */
  method HandleImages(keyword: Option<string>, accessKey: Option<string>, upstream: Upstream<seq<UpstreamPhoto>>)
    returns (r: Response)
    ensures KeywordMissing(keyword) ==> r == Failure(400, KeywordRequired)
    ensures !KeywordMissing(keyword) && !Truthy(accessKey) ==> r == Failure(500, KeyNotConfigured)
    ensures r.Images? <==> !KeywordMissing(keyword) && Truthy(accessKey) && upstream.Answered?
    ensures r.Images? ==> |r.images| == |upstream.body|
    ensures r.Images? ==> forall i :: 0 <= i < |r.images| ==> SanitizedFrom(r.images[i], upstream.body[i])
    ensures !KeywordMissing(keyword) && Truthy(accessKey) && upstream.HttpFailure? ==>
      r == Failure(upstream.status, ErrorMessage(upstream.status))
    ensures !KeywordMissing(keyword) && Truthy(accessKey) && upstream.NoResponse? ==> r == Failure(500, InternalError)
    ensures !r.Images? ==> r.Failure?
  {
    if KeywordMissing(keyword) {
      return Failure(400, KeywordRequired);
    }
    if !Truthy(accessKey) {
      return Failure(500, KeyNotConfigured);
    }
    match upstream
    case Answered(results) =>
      var images := SanitizeAll(results);
      r := Images(images);
    case HttpFailure(status) =>
      r := Failure(status, ErrorMessage(status));
    case NoResponse =>
      r := Failure(500, InternalError);
  }

  /** `POST /api/track-download`: 400 without a download location, 500
      without an access key, success when the ping is answered, the upstream
      status on an HTTP error and 500 otherwise. */
  method HandleTrackDownload(downloadLocation: Option<string>, accessKey: Option<string>, upstream: Upstream<bool>)
    returns (r: Response)
    ensures !Truthy(downloadLocation) ==> r == Failure(400, LocationRequired)
    ensures Truthy(downloadLocation) && !Truthy(accessKey) ==> r == Failure(500, KeyNotConfigured)
    ensures r == Tracked <==> Truthy(downloadLocation) && Truthy(accessKey) && upstream.Answered?
    ensures Truthy(downloadLocation) && Truthy(accessKey) && upstream.HttpFailure? ==>
      r == Failure(upstream.status, TrackFailed)
    ensures Truthy(downloadLocation) && Truthy(accessKey) && upstream.NoResponse? ==> r == Failure(500, InternalError)
  {
    if !Truthy(downloadLocation) {
      return Failure(400, LocationRequired);
    }
    if !Truthy(accessKey) {
      return Failure(500, KeyNotConfigured);
    }
    match upstream
    case Answered(_) => r := Tracked;
    case HttpFailure(status) => r := Failure(status, TrackFailed);
    case NoResponse => r := Failure(500, InternalError);
  }
}
