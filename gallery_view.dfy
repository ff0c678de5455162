/**
 * The GallerySection component's state: the selected category and the image
 * open in the lightbox, with the click handlers that overwrite them.
 */
module GalleryView {
  import opened Wrappers
  import opened Gallery
  import GalleryLaws

  class GallerySection {
    const images: seq<GalleryImage>
    const categories: seq<GalleryCategory>
    var selectedCategory: string
    var selectedImage: Option<GalleryImage>

    /** The lightbox only ever holds an image of the full list. */
    ghost predicate Valid()
      reads this
    {
      selectedImage.Some? ==> selectedImage.value in images
    }

    /** Mounting: everything shown, lightbox closed. */
    constructor (images: seq<GalleryImage>, categories: seq<GalleryCategory>)
      ensures Valid()
      ensures this.images == images && this.categories == categories
      ensures selectedCategory == All && selectedImage == None
    {
      this.images := images;
      this.categories := categories;
      selectedCategory := All;
      selectedImage := None;
    }

    /** The grid's contents for the current selection. */
    function FilteredImages(): (r: seq<GalleryImage>)
      reads this
      ensures forall x :: x in r ==> x in images
    {
      Filtered(images, selectedCategory)
    }

    /** Whether the "No Images Found" block is rendered. */
    predicate ShowsEmpty()
      reads this
      ensures ShowsEmpty() <==>
                if selectedCategory == All then images == []
                else forall j :: 0 <= j < |images| ==> images[j].category != selectedCategory
    {
      ShowsEmptyState(images, selectedCategory)
    }

    /** The rendered lightbox: none while closed. */
    function CurrentLightbox(): (v: Option<LightboxView>)
      reads this
      requires Valid()
      ensures v.None? <==> selectedImage.None?
      ensures v.Some? ==> v.value.current == selectedImage.value
    {
      Lightbox(images, categories, selectedImage)
    }

    /** A category button: any tag is accepted, including one no image carries. */
    method SelectCategory(c: string)
      requires Valid()
      modifies this
      ensures Valid()
      ensures selectedCategory == c && selectedImage == old(selectedImage)
    {
      selectedCategory := c;
    }

    /** Clicking the k-th card of the grid opens that image. */
    method OpenFromGrid(k: nat)
      requires Valid()
      requires k < |FilteredImages()|
      modifies this
      ensures Valid()
      ensures selectedImage == Some(old(FilteredImages())[k])
      ensures selectedCategory == old(selectedCategory)
    {
      GalleryLaws.GridItemsAreGalleryImages(images, selectedCategory, k);
      selectedImage := Some(FilteredImages()[k]);
    }

    /** The lightbox's close button; from any state, and idempotent. */
    method Close()
      requires Valid()
      modifies this
      ensures Valid()
      ensures selectedImage == None && selectedCategory == old(selectedCategory)
    {
      selectedImage := None;
    }

    /** The lightbox's next button, which exists only while an image is open. */
    method ShowNext()
      requires Valid() && selectedImage.Some?
      modifies this
      ensures Valid()
      ensures selectedImage == Some(NextImage(images, old(selectedImage).value))
      ensures selectedCategory == old(selectedCategory)
    {
      selectedImage := Some(NextImage(images, selectedImage.value));
    }

    /** The lightbox's previous button, which exists only while an image is open. */
    method ShowPrev()
      requires Valid() && selectedImage.Some?
      modifies this
      ensures Valid()
      ensures selectedImage == Some(PrevImage(images, old(selectedImage).value))
      ensures selectedCategory == old(selectedCategory)
    {
      selectedImage := Some(PrevImage(images, selectedImage.value));
    }
  }

  /** A session over the site's own photos: filter, open, step forward and back, close. */
  method SiteSession()
  {
    var g := new GallerySection(GalleryImages(), GalleryCategories());
    g.SelectCategory("cultural");
    GalleryLaws.SiteFilters();
    g.OpenFromGrid(1);
    assert g.selectedImage == Some(GalleryImages()[1]);
    GalleryLaws.NavigationLeavesFilter();
    g.ShowNext();
    assert g.selectedImage == Some(GalleryImages()[2]);
    GalleryLaws.PrevAfterNext(GalleryImages(), GalleryImages()[1]);
    g.ShowPrev();
    assert g.selectedImage == Some(GalleryImages()[1]);
    g.Close();
    g.Close();
    assert g.CurrentLightbox() == None;
    g.SelectCategory("campus");
    assert g.ShowsEmpty();
  }
}
