/** The referral marker that every photographer link must carry, and the two
    ways a link gets it: synthesised from a username, or appended to an
    existing link with `?` or `&`. The server and both client components
    apply the same rule. */
module Attribution {
  import opened Text

  const Marker: string := "utm_source=zen-writing"
  const MediumSuffix: string := "&utm_medium=referral"
  const ReferralQuery: string := Marker + MediumSuffix
  const ProfileBase: string := "https://unsplash.com/@"

  /** The separator that starts the appended query: `&` when the link already
      has a query, `?` otherwise. */
  function Separator(url: string): (c: char)
    ensures c == '&' <==> '?' in url
    ensures c == '&' || c == '?'
  {
    if '?' in url then '&' else '?'
  }

  /** The link with the marker appended once, unless it already has it. */
  function WithReferral(url: string): (r: string)
    ensures Contains(r, Marker)
    ensures |url| <= |r| && r[..|url|] == url
    ensures Contains(url, Marker) <==> r == url
    ensures !Contains(url, Marker) ==> r[|url|..] == [Separator(url)] + ReferralQuery
  {
    if Contains(url, Marker) then url
    else
      var r := url + [Separator(url)] + ReferralQuery;
      assert r == url + [Separator(url)] + Marker + MediumSuffix;
      ContainsInfix(url + [Separator(url)], Marker, MediumSuffix);
      r
  }

  /** Normalising twice is normalising once. */
  lemma WithReferralIdempotent(url: string)
    ensures WithReferral(WithReferral(url)) == WithReferral(url)
  {
  }

  /** The link synthesised from a username. */
  function ProfileFor(username: string): (r: string)
    ensures |ProfileBase| + |username| < |r| && r[..|ProfileBase| + |username|] == ProfileBase + username
    ensures r[|ProfileBase| + |username|] == '?'
    ensures Contains(r, Marker)
    ensures WithReferral(r) == r
  {
    var r := ProfileBase + username + "?" + ReferralQuery;
    assert r == ProfileBase + username + "?" + Marker + MediumSuffix;
    ContainsInfix(ProfileBase + username + "?", Marker, MediumSuffix);
    r
  }
}
