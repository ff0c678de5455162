/**
 * Laws of the gallery's derived values: the filter is the order-preserving
 * filter, the empty state appears exactly when nothing matches, and the
 * lightbox's next/previous navigation is a rotation of the full list.
 */
module GalleryLaws {
  import opened Wrappers
  import opened Gallery

  // ---------------------------------------------------------------- filter

  /** FilterByCategory picks exactly the images at MatchingPositions, in that order. */
  lemma {:induction false} FilterAtMatchingPositions(images: seq<GalleryImage>, c: string, from: nat)
    requires from <= |images|
    decreases |images| - from
    ensures |FilterByCategory(images[from..], c)| == |MatchingPositions(images, c, from)|
    ensures forall k :: 0 <= k < |MatchingPositions(images, c, from)| ==>
              FilterByCategory(images[from..], c)[k] == images[MatchingPositions(images, c, from)[k]]
  {
    if from < |images| {
      var s := images[from..];
      assert s[0] == images[from] && s[1..] == images[from + 1..];
      FilterAtMatchingPositions(images, c, from + 1);
      var rest, q := FilterByCategory(images[from + 1..], c), MatchingPositions(images, c, from + 1);
      if images[from].category == c {
        assert FilterByCategory(s, c) == [images[from]] + rest;
        assert MatchingPositions(images, c, from) == [from] + q;
        forall k | 0 <= k < |q| + 1
          ensures ([images[from]] + rest)[k] == images[([from] + q)[k]]
        {
          if k > 0 {
            assert ([images[from]] + rest)[k] == rest[k - 1];
            assert ([from] + q)[k] == q[k - 1];
          }
        }
      } else {
        assert FilterByCategory(s, c) == rest;
        assert MatchingPositions(images, c, from) == q;
      }
    }
  }

  /**
   * With a category selected, the grid shows images[p[0]], images[p[1]], ... where p lists,
   * in increasing order, every position whose image has that category, and only those.
   */
  lemma FilteredIsOrderPreserving(images: seq<GalleryImage>, selected: string)
    requires selected != All
    ensures var p := MatchingPositions(images, selected, 0);
            |Filtered(images, selected)| == |p|
            && (forall k :: 0 <= k < |p| ==> Filtered(images, selected)[k] == images[p[k]])
            && (forall k, l :: 0 <= k < l < |p| ==> p[k] < p[l])
            && (forall j :: 0 <= j < |images| ==> (j in p <==> images[j].category == selected))
  {
    FilterAtMatchingPositions(images, selected, 0);
    assert images[0..] == images;
  }

  /** Everything the grid can show, and so everything that can be opened from it, is in the full list. */
  lemma GridItemsAreGalleryImages(images: seq<GalleryImage>, selected: string, k: nat)
    requires k < |Filtered(images, selected)|
    ensures Filtered(images, selected)[k] in images
  {
  }

  // ---------------------------------------------------------------- lookup

  /** With unique ids, findIndex on a member's id finds that member. */
  lemma FindIndexOfMember(images: seq<GalleryImage>, x: GalleryImage)
    requires UniqueIds(images) && x in images
    ensures 0 <= FindIndex(images, x.id) < |images|
    ensures images[FindIndex(images, x.id)] == x
  {
  }

  // ---------------------------------------------------------------- navigation

  /** The neighbours of a selected image are computed from in-range indices of the full list. */
  lemma NeighbourIndicesInRange(images: seq<GalleryImage>, x: GalleryImage)
    requires x in images
    ensures var i := FindIndex(images, x.id);
            0 <= i < |images|
            && 0 <= NextIndex(i, |images|) < |images|
            && 0 <= PrevIndex(i, |images|) < |images|
  {
  }

  /** Stepping forward moves the found index one place on, wrapping at the end. */
  lemma NextImageIndex(images: seq<GalleryImage>, x: GalleryImage)
    requires UniqueIds(images) && x in images
    ensures var i, n := FindIndex(images, x.id), |images|;
            FindIndex(images, NextImage(images, x).id) == if i + 1 == n then 0 else i + 1
  {
  }

  /** Previous undoes next. */
  lemma PrevAfterNext(images: seq<GalleryImage>, x: GalleryImage)
    requires UniqueIds(images) && x in images
    ensures PrevImage(images, NextImage(images, x)) == x
  {
  }

  /** Next undoes previous. */
  lemma NextAfterPrev(images: seq<GalleryImage>, x: GalleryImage)
    requires UniqueIds(images) && x in images
    ensures NextImage(images, PrevImage(images, x)) == x
  {
  }

  /** In a one-image gallery both buttons stay on that image. */
  lemma SingleImageIsFixed(images: seq<GalleryImage>, x: GalleryImage)
    requires |images| == 1 && x in images
    ensures NextImage(images, x) == x && PrevImage(images, x) == x
  {
  }

  /** Pressing the next button k times. */
  function NextTimes(images: seq<GalleryImage>, x: GalleryImage, k: nat): (r: GalleryImage)
    requires |images| > 0
    ensures k > 0 ==> r in images
  {
    if k == 0 then x else NextImage(images, NextTimes(images, x, k - 1))
  }

  /** After k <= n presses the lightbox shows the image k places on, counted circularly. */
  lemma {:induction false} NextTimesIndex(images: seq<GalleryImage>, x: GalleryImage, k: nat)
    requires UniqueIds(images) && x in images && k <= |images|
    ensures var i, n := FindIndex(images, x.id), |images|;
            0 <= i < n && NextTimes(images, x, k) == images[if i + k < n then i + k else i + k - n]
  {
    FindIndexOfMember(images, x);
    if k > 0 {
      NextTimesIndex(images, x, k - 1);
      NextImageIndex(images, NextTimes(images, x, k - 1));
      FindIndexOfMember(images, NextTimes(images, x, k));
    }
  }

  /** Pressing next n times in a gallery of n images comes back to the start. */
  lemma NextCycle(images: seq<GalleryImage>, x: GalleryImage)
    requires UniqueIds(images) && x in images
    ensures NextTimes(images, x, |images|) == x
  {
    NextTimesIndex(images, x, |images|);
    FindIndexOfMember(images, x);
  }

  // ---------------------------------------------------------------- the site's own tables

  /** What each button of the category bar shows for the site's three photos. */
  lemma SiteFilters()
    ensures Filtered(GalleryImages(), "all") == GalleryImages()
    ensures Filtered(GalleryImages(), "cultural") == [GalleryImages()[0], GalleryImages()[1]]
    ensures Filtered(GalleryImages(), "activities") == [GalleryImages()[2]]
    ensures ShowsEmptyState(GalleryImages(), "events")
    ensures ShowsEmptyState(GalleryImages(), "achievements")
    ensures ShowsEmptyState(GalleryImages(), "campus")
  {
  }

  /** Every photo's category has a badge label in the category table. */
  lemma SiteBadgesResolve()
    ensures forall x :: x in GalleryImages() ==> LabelOf(GalleryCategories(), x.category).Some?
    ensures LabelOf(GalleryCategories(), "cultural") == Some("Cultural")
    ensures LabelOf(GalleryCategories(), "activities") == Some("Activities")
  {
  }

  /**
   * Navigation ignores the filter: with "cultural" selected, next from photo 2
   * opens photo 3, which the grid does not show.
   */
  lemma NavigationLeavesFilter()
    ensures NextImage(GalleryImages(), GalleryImages()[1]) == GalleryImages()[2]
    ensures GalleryImages()[2] !in Filtered(GalleryImages(), "cultural")
  {
  }

  /** Next from the last photo wraps to the first; previous from the first wraps to the last. */
  lemma SiteWrapAround()
    ensures NextImage(GalleryImages(), GalleryImages()[2]) == GalleryImages()[0]
    ensures PrevImage(GalleryImages(), GalleryImages()[0]) == GalleryImages()[2]
  {
  }
}
