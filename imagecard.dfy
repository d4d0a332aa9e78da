/** The gallery card: the display size it reports for its image (the
    natural size fitted into a 300 by 400 box, or the default box when the
    image fails to load) and the photographer link it renders. */
module ImageCard {
  import opened Common
  import opened Text
  import opened Attribution
  import opened Layout

  const MaxWidth: real := 300.0
  const MaxHeight: real := 400.0

  /** How loading the image ended. */
  datatype Load = Loaded(naturalWidth: real, naturalHeight: real) | LoadFailed

  /** Fits inside the card box with positive sides. */
  predicate InBox(z: Size) {
    0.0 < z.width <= MaxWidth && 0.0 < z.height <= MaxHeight
  }

  /** The aspect-ratio fit: full width first, then full height if that is
      too tall. The result keeps the image's proportions, lies in the box
      and touches its right or bottom edge. */
  method FitSize(naturalWidth: real, naturalHeight: real) returns (z: Size)
    requires 0.0 < naturalWidth && 0.0 < naturalHeight
    ensures InBox(z)
    ensures z.width * naturalHeight == z.height * naturalWidth
    ensures z.width == MaxWidth || z.height == MaxHeight
  {
    var aspectRatio := naturalWidth / naturalHeight;
    var width := MaxWidth;
    var height := MaxWidth / aspectRatio;
    assert height == MaxWidth * naturalHeight / naturalWidth;
    if height > MaxHeight {
      height := MaxHeight;
      width := MaxHeight * aspectRatio;
      assert MaxWidth == (MaxWidth / aspectRatio) * aspectRatio;
      assert width < MaxWidth;
    }
    z := Size(width, height);
  }

  /** The three properties of FitSize determine the size: two sizes in the
      box with the image's proportions, each touching the right or the bottom
      edge, are the same size. */
  lemma FitUnique(a: Size, b: Size, naturalWidth: real, naturalHeight: real)
    requires 0.0 < naturalWidth && 0.0 < naturalHeight
    requires InBox(a) && a.width * naturalHeight == a.height * naturalWidth && (a.width == MaxWidth || a.height == MaxHeight)
    requires InBox(b) && b.width * naturalHeight == b.height * naturalWidth && (b.width == MaxWidth || b.height == MaxHeight)
    ensures a == b
  {
    if a.width == b.width {
      assert a.height * naturalWidth == b.height * naturalWidth;
    } else if a.width == MaxWidth && b.height == MaxHeight {
      SwapOrder(a, b, naturalWidth, naturalHeight);
    } else if b.width == MaxWidth && a.height == MaxHeight {
      SwapOrder(b, a, naturalWidth, naturalHeight);
    }
  }

  /** A full-width fit and a full-height fit of the same proportions agree. */
  lemma SwapOrder(a: Size, b: Size, naturalWidth: real, naturalHeight: real)
    requires 0.0 < naturalWidth && 0.0 < naturalHeight
    requires InBox(a) && a.width * naturalHeight == a.height * naturalWidth && a.width == MaxWidth
    requires InBox(b) && b.width * naturalHeight == b.height * naturalWidth && b.height == MaxHeight
    ensures a == b
  {
    // a.height <= 400 gives 300 * h <= 400 * w; b.width <= 300 gives 400 * w <= 300 * h.
    assert MaxWidth * naturalHeight <= MaxHeight * naturalWidth by {
      assert a.height * naturalWidth <= MaxHeight * naturalWidth;
    }
    assert MaxHeight * naturalWidth <= MaxWidth * naturalHeight by {
      assert b.width * naturalHeight <= MaxWidth * naturalHeight;
    }
    assert a.height * naturalWidth == MaxHeight * naturalWidth;
    assert b.width * naturalHeight == MaxWidth * naturalHeight;
  }

  /** What the card reports through `onSizeLoad`: nothing when its size is
      already known or nobody listens; otherwise the fitted size, or 300 by
      400 when loading failed. */
  method ReportSize(known: Option<Size>, listening: bool, load: Load) returns (reported: Option<Size>)
    requires load.Loaded? ==> 0.0 < load.naturalWidth && 0.0 < load.naturalHeight
    ensures reported.Some? <==> known.None? && listening
    ensures reported.Some? ==> InBox(reported.value)
    ensures reported.Some? && load.LoadFailed? ==> reported.value == Size(MaxWidth, MaxHeight)
    ensures reported.Some? && load.Loaded? ==>
      reported.value.width * load.naturalHeight == reported.value.height * load.naturalWidth
      && (reported.value.width == MaxWidth || reported.value.height == MaxHeight)
  {
    reported := None;
    if known.None? && listening {
      match load
      case Loaded(w, h) =>
        var z := FitSize(w, h);
        reported := Some(z);
      case LoadFailed =>
        reported := Some(Size(MaxWidth, MaxHeight));
    }
  }

  /** Every size a card can report, and the layout's default for a missing
      one, fits each canvas width the layout chooses, so the layout's
      separation and bounds guarantees apply to the gallery. */
  lemma CardSizesFit(sizes: seq<Option<Size>>, innerWidth: Option<real>)
    requires forall i :: 0 <= i < |sizes| && sizes[i].Some? ==> InBox(sizes[i].value)
    ensures AllFit(sizes, CanvasWidthFor(innerWidth))
  {
    var w := CanvasWidthFor(innerWidth);
    forall i | 0 <= i < |sizes|
      ensures Fits(PlacedSize(sizes[i]), w)
    {
      if sizes[i].Some? {
        assert InBox(sizes[i].value);
      }
    }
  }

  /** The link around the photographer's name. */
  function PhotographerHref(profile: string): (href: string)
    ensures href == WithReferral(profile)
  {
    if Contains(profile, Marker) then profile
    else
      var separator := if Contains(profile, "?") then '&' else '?';
      ContainsChar(profile, '?');
      profile + [separator] + ReferralQuery
  }

  /** A profile the server already normalised is linked unchanged. */
  lemma ServedProfileUnchanged(profile: string)
    requires Contains(profile, Marker)
    ensures PhotographerHref(profile) == profile
  {
  }
}
