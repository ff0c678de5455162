/**
 * The gallery's derived values: the category filter, the lightbox's index
 * arithmetic over the full image list, and the category-label lookup.
 * Everything here is an expression of the component's state; the state
 * itself lives in GalleryView.
 */
module Gallery {
  import opened Wrappers
  import opened JsArith

  /** One gallery photo. The source also carries src, alt, description and date: display strings with no role here. */
  datatype GalleryImage = GalleryImage(id: int, category: string, title: string)

  /** One row of the category table: the tag an image carries and the label it is shown with. */
  datatype GalleryCategory = GalleryCategory(id: string, name: string)

  /** The catch-all selection that disables filtering. */
  const All: string := "all"

  /** No two images share an id. */
  predicate UniqueIds(images: seq<GalleryImage>) {
    forall i, j :: 0 <= i < |images| && 0 <= j < |images| && images[i].id == images[j].id ==> i == j
  }

  /** The site's category table: the catch-all row first, then one row per tag, no tag twice. */
  function GalleryCategories(): (r: seq<GalleryCategory>)
    ensures |r| == 6 && r[0] == GalleryCategory(All, "All Photos")
    ensures forall i, j :: 0 <= i < j < |r| ==> r[i].id != r[j].id
  {
    [
      GalleryCategory("all", "All Photos"),
      GalleryCategory("events", "School Events"),
      GalleryCategory("activities", "Activities"),
      GalleryCategory("cultural", "Cultural"),
      GalleryCategory("achievements", "Achievements"),
      GalleryCategory("campus", "Campus")
    ]
  }

  /** The site's photos: three of them, with distinct ids, none tagged with the catch-all. */
  function GalleryImages(): (r: seq<GalleryImage>)
    ensures |r| == 3 && UniqueIds(r)
    ensures forall x :: x in r ==> x.category != All
  {
    [
      GalleryImage(1, "cultural", "Clay Modeling Festival 2024"),
      GalleryImage(2, "cultural", "Hatekhori Festival"),
      GalleryImage(3, "activities", "Indoor Play Zone")
    ]
  }

  // ---------------------------------------------------------------- filter

  /** `images.filter(image => image.category === c)`. */
  function FilterByCategory(images: seq<GalleryImage>, c: string): (r: seq<GalleryImage>)
    ensures |r| <= |images|
    ensures forall x :: x in r <==> x in images && x.category == c
    ensures r == [] <==> forall j :: 0 <= j < |images| ==> images[j].category != c
  {
    if images == [] then []
    else if images[0].category == c then [images[0]] + FilterByCategory(images[1..], c)
    else FilterByCategory(images[1..], c)
  }

  /** The list the grid shows for a selection: everything for "all", otherwise the images of that category. */
  function Filtered(images: seq<GalleryImage>, selected: string): (r: seq<GalleryImage>)
    ensures selected == All ==> r == images
    ensures selected != All ==> forall x :: x in r <==> x in images && x.category == selected
    ensures forall x :: x in r ==> x in images
  {
    if selected == All then images else FilterByCategory(images, selected)
  }

  /**
   * Reference definition of an order-preserving filter: the positions from
   * `from` on whose image has category c, in increasing order, and all of them.
   */
  function MatchingPositions(images: seq<GalleryImage>, c: string, from: nat): (p: seq<nat>)
    requires from <= |images|
    decreases |images| - from
    ensures forall k :: 0 <= k < |p| ==> from <= p[k] < |images| && images[p[k]].category == c
    ensures forall k, l :: 0 <= k < l < |p| ==> p[k] < p[l]
    ensures forall j :: from <= j < |images| && images[j].category == c ==> j in p
  {
    if from == |images| then []
    else if images[from].category == c then [from] + MatchingPositions(images, c, from + 1)
    else MatchingPositions(images, c, from + 1)
  }

  /** The empty-state block is rendered exactly when the filtered list is empty. */
  predicate ShowsEmptyState(images: seq<GalleryImage>, selected: string)
    ensures ShowsEmptyState(images, selected) <==>
              if selected == All then images == []
              else forall j :: 0 <= j < |images| ==> images[j].category != selected
  {
    |Filtered(images, selected)| == 0
  }

  // ---------------------------------------------------------------- lookups

  /** `images.findIndex(img => img.id === id)`: the first position holding that id, or -1. */
  function FindIndex(images: seq<GalleryImage>, id: int): (r: int)
    ensures -1 <= r < |images|
    ensures r == -1 <==> forall j :: 0 <= j < |images| ==> images[j].id != id
    ensures r >= 0 ==> images[r].id == id && forall j :: 0 <= j < r ==> images[j].id != id
  {
    if images == [] then -1
    else if images[0].id == id then 0
    else
      var k := FindIndex(images[1..], id);
      if k == -1 then -1 else k + 1
  }

  /** `categories.find(cat => cat.id === id)?.name`: the label of the first matching row, or none. */
  function LabelOf(categories: seq<GalleryCategory>, id: string): (r: Option<string>)
    ensures r.None? <==> forall j :: 0 <= j < |categories| ==> categories[j].id != id
    ensures r.Some? ==> exists i :: 0 <= i < |categories| && categories[i].id == id && categories[i].name == r.value
                                   && forall j :: 0 <= j < i ==> categories[j].id != id
  {
    if categories == [] then None
    else if categories[0].id == id then Some(categories[0].name)
    else
      var r := LabelOf(categories[1..], id);
      assert forall j :: 1 <= j < |categories| ==> categories[j] == categories[1..][j - 1];
      r
  }

  // ---------------------------------------------------------------- lightbox

  /** `(currentIndex + 1) % length`; also in range for the not-found index -1. */
  function NextIndex(i: int, n: int): (r: int)
    requires n > 0 && -1 <= i < n
    ensures 0 <= r < n
    ensures r == if i + 1 == n then 0 else i + 1
  {
    JsRemNearRange(i + 1, n);
    JsRem(i + 1, n)
  }

  /** `(currentIndex - 1 + length) % length`; also in range for the not-found index -1. */
  function PrevIndex(i: int, n: int): (r: int)
    requires n > 0 && -1 <= i < n
    ensures 0 <= r < n
    ensures 0 <= i ==> r == if i == 0 then n - 1 else i - 1
  {
    JsRemNearRange(i - 1 + n, n);
    JsRem(i - 1 + n, n)
  }

  /** The image the lightbox's next button opens: the successor, in the full list, of the current image's id. */
  function NextImage(images: seq<GalleryImage>, current: GalleryImage): (r: GalleryImage)
    requires |images| > 0
    ensures r in images
  {
    images[NextIndex(FindIndex(images, current.id), |images|)]
  }

  /** The image the lightbox's previous button opens. */
  function PrevImage(images: seq<GalleryImage>, current: GalleryImage): (r: GalleryImage)
    requires |images| > 0
    ensures r in images
  {
    images[PrevIndex(FindIndex(images, current.id), |images|)]
  }

  /** What an open lightbox shows: the image, its two neighbours and its category badge. */
  datatype LightboxView = LightboxView(current: GalleryImage, next: GalleryImage, prev: GalleryImage, badge: Option<string>)

  /** The Lightbox component: nothing when no image is selected, otherwise the view of the selected one. */
  function Lightbox(images: seq<GalleryImage>, categories: seq<GalleryCategory>, selected: Option<GalleryImage>): (v: Option<LightboxView>)
    requires selected.Some? ==> |images| > 0
    ensures v.None? <==> selected.None?
    ensures v.Some? ==> v.value.current == selected.value && v.value.next in images && v.value.prev in images
    ensures v.Some? ==> (v.value.badge.None? <==> forall j :: 0 <= j < |categories| ==> categories[j].id != selected.value.category)
  {
    match selected
    case None => None
    case Some(image) =>
      Some(LightboxView(image, NextImage(images, image), PrevImage(images, image), LabelOf(categories, image.category)))
  }
}
