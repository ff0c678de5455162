# Annex School site: verified model of the page's view state

The school's single-page site is almost entirely static markup. The page does hold a little state logic,
and this project models that logic in Dafny and proves its laws:

- **Gallery** (`GallerySection`). The component holds two pieces of state: the selected category (initially
  `"all"`) and the image open in the lightbox (or none). The grid shows either everything or an
  order-preserving filter by category. An empty grid shows a "No Images Found" block. The lightbox badge
  looks up the image's category label in the category table, and the label may be absent. The lightbox's
  next and previous buttons move circularly over the *full* image list. They find the open image with
  `findIndex` on its id and then take `(i + 1) % n` or `(i - 1 + n) % n`.
  - Files: `gallery.dfy` holds the derived values as functions, `gallery_laws.dfy` the lemmas, and
    `gallery_view.dfy` the component state as a class.
- **Scroll direction** (`useScrollDirection`, `scroll.dfy`). The hook holds a direction and the last
  stored scroll position. The direction changes only when one event moves more than 10 pixels. The stored
  position is always clamped at 0.
- **Visibility latch** (`useScrollAnimation`, `visibility.dfy`). A flag that starts false. It is set true by
  any intersection callback whose (first) entry is intersecting, and nothing resets it.
- **Navbar** (`navbar.dfy`). The mobile-menu flag toggles on its button and is cleared when a menu link is
  followed. The "scrolled" flag records whether the page is more than 50 pixels down. The header hides
  exactly when the direction hook reports downward scrolling.

JavaScript's `%` truncates toward zero, unlike Dafny's. It is modelled explicitly as `JsArith.JsRem`
(`jsarith.dfy`). The index expressions are written exactly as the source has them, so the model also
covers the not-found index -1. For any non-empty list, both neighbour indices stay in range even then.
Browser events are method calls: the scroll position (`window.scrollY`) and the intersection entries are
passed in as parameters. Scroll positions are integers.

Two details of the code shape the preconditions:
- The next/previous handlers (page.tsx:943-944) have no guard for a closed lightbox or an empty list.
  They exist only inside the rendered lightbox, so `ShowNext`/`ShowPrev` require an open image and
  `NextImage`/`PrevImage` require a non-empty list.
- The intersection callback tests only `isIntersecting` of its first entry (page.tsx:110-111); the
  threshold is passed to the browser.

## Model

| member | source | states |
|---|---|---|
| `Gallery.GalleryCategories` | app/page.tsx:890-897 | the site's category table: six rows, the catch-all `"all"` / "All Photos" first, no tag twice |
| `Gallery.GalleryImages` | app/page.tsx:899-929 | the site's photos: three of them, with distinct ids (1, 2, 3), none tagged `"all"` |
| `Gallery.FilterByCategory` | app/page.tsx:933 | the result holds an image exactly when the input does and its category matches; it is empty exactly when no image matches; it is no longer than the input |
| `Gallery.Filtered` | app/page.tsx:931-933 | `"all"` gives the full list unchanged; any other selection gives exactly the images of that category; everything in the result is in the full list |
| `Gallery.MatchingPositions` | app/page.tsx:933 | reference for the filter: strictly increasing positions, each holding an image of the category, and every such position listed |
| `GalleryLaws.FilterAtMatchingPositions` | app/page.tsx:933 | the filter's k-th element is the image at the k-th matching position, and the two have the same length |
| `GalleryLaws.FilteredIsOrderPreserving` | app/page.tsx:931-933 | with a category selected, the grid is exactly the matching images of the full list, in their original order |
| `Gallery.ShowsEmptyState` | app/page.tsx:1120 | the empty-state block shows exactly when no image carries the selected category (for `"all"`, exactly when the list is empty) |
| `GalleryView.GallerySection.ShowsEmpty` | app/page.tsx:1120 | the component shows its empty-state block exactly when no image carries the selected category (for `"all"`, exactly when the list is empty) |
| `GalleryLaws.GridItemsAreGalleryImages` | app/page.tsx:1048-1058 | every card the grid can open is an image of the full list |
| `Gallery.FindIndex` | app/page.tsx:939 | -1 exactly when no image has the id; otherwise an in-range position holding the id with no earlier position holding it |
| `GalleryLaws.FindIndexOfMember` | app/page.tsx:939 | with unique ids, the lookup finds the open image itself at an in-range index |
| `Gallery.LabelOf` | app/page.tsx:985 | none exactly when no table row has the id; otherwise the name of the first row that has it (the same lookup serves the grid badge at line 1098) |
| `Gallery.NextIndex` | app/page.tsx:940 | for any index from -1 to n-1 the result lies in [0, n): one place on, wrapping to 0 after the last |
| `Gallery.PrevIndex` | app/page.tsx:941 | for any index from -1 to n-1 the result lies in [0, n): one place back, wrapping to n-1 before the first |
| `JsArith.JsRem` | app/page.tsx:940-941 | JavaScript's `%` with a positive divisor: the dividend minus the result is a multiple of n, and the result lies in [0, n) for a non-negative dividend and in (-n, 0] for a negative one; together these fix the result for every dividend |
| `JsArith.JsRemNearRange` | app/page.tsx:940-941 | within (-n, 2n) the remainder is the dividend, or the dividend minus n |
| `Gallery.NextImage` | app/page.tsx:939-940 | the next button opens an image of the full list |
| `Gallery.PrevImage` | app/page.tsx:939-941 | the previous button opens an image of the full list |
| `Gallery.Lightbox` | app/page.tsx:936-941 | renders nothing exactly when no image is selected; otherwise it shows the selected image with neighbours from the full list, and the badge is absent exactly when the table lacks its category |
| `GalleryLaws.NeighbourIndicesInRange` | app/page.tsx:939-941 | for an image of the list, its index and both neighbour indices lie in [0, n) |
| `GalleryLaws.NextImageIndex` | app/page.tsx:939-943 | with unique ids, next moves the open image's index one place on, wrapping at the end |
| `GalleryLaws.PrevAfterNext` | app/page.tsx:939-944 | with unique ids, previous after next returns to the image |
| `GalleryLaws.NextAfterPrev` | app/page.tsx:939-944 | with unique ids, next after previous returns to the image |
| `GalleryLaws.SingleImageIsFixed` | app/page.tsx:940-941 | in a one-image gallery both buttons keep the same image |
| `GalleryLaws.NextTimes` | app/page.tsx:943 | pressing next at least once always leaves an image of the full list open |
| `GalleryLaws.NextTimesIndex` | app/page.tsx:940-943 | after k <= n presses of next, the open image is the one k places on, counted circularly |
| `GalleryLaws.NextCycle` | app/page.tsx:940-943 | pressing next n times returns to the starting image |
| `GalleryLaws.SiteFilters` | app/page.tsx:890-933 | for the site's tables, "cultural" shows photos 1 and 2, "activities" shows photo 3, and events, achievements and campus show the empty state |
| `GalleryLaws.SiteBadgesResolve` | app/page.tsx:890-897 | every photo's category has a label in the site's category table |
| `GalleryLaws.NavigationLeavesFilter` | app/page.tsx:931-943 | with "cultural" selected, next from photo 2 opens photo 3, which the grid does not show |
| `GalleryLaws.SiteWrapAround` | app/page.tsx:940-941 | next from the last photo opens the first; previous from the first opens the last |
| `GalleryView.GallerySection.constructor` | app/page.tsx:876-888 | on mount the category is `"all"` and the lightbox is closed |
| `GalleryView.GallerySection.FilteredImages` | app/page.tsx:931-933 | the grid only shows images of the full list |
| `GalleryView.GallerySection.CurrentLightbox` | app/page.tsx:936-941 | the lightbox renders exactly while an image is selected, and then it shows that image |
| `GalleryView.GallerySection.SelectCategory` | app/page.tsx:1023 | any tag becomes the selection; the open image is kept and stays an image of the list |
| `GalleryView.GallerySection.OpenFromGrid` | app/page.tsx:1058 | clicking the k-th card opens exactly that card's image, which is in the full list |
| `GalleryView.GallerySection.Close` | app/page.tsx:949 | from any state the lightbox is closed afterwards (so closing twice is closing once); the category is kept |
| `GalleryView.GallerySection.ShowNext` | app/page.tsx:943 | the open image becomes its next neighbour in the full list |
| `GalleryView.GallerySection.ShowPrev` | app/page.tsx:944 | the open image becomes its previous neighbour in the full list |
| `GalleryView.SiteSession` | app/page.tsx:1023-1120 | walks the site's own tables through the handlers: select "cultural", open the second card, next (photo 3), previous (back to photo 2), close twice (lightbox gone), select "campus" (empty state shown) |
| `ScrollDirection.UpdatedDirection` | app/page.tsx:139-143 | a move of at most 10 keeps the direction; a move of more than 10 down gives down; one of more than 10 up gives up |
| `ScrollDirection.Clamp` | app/page.tsx:144 | the stored position is never negative and never below the scroll position; it is either that position or 0 |
| `ScrollDirection.Step` | app/page.tsx:138-145 | after one event the stored position is non-negative |
| `ScrollDirection.ReplayStoresLastPosition` | app/page.tsx:144 | after any non-empty run of events the stored position is the last position clamped at 0 |
| `ScrollDirection.QuietScrollKeepsDirection` | app/page.tsx:141 | a run of events that each move at most 10 from the stored position leaves the direction unchanged |
| `ScrollDirection.ScrollScenarios` | app/page.tsx:134-144 | starting at (up, 0): 5 then 3 stays up; 20 turns down; 20 then 5 turns down and back up; -30 stores 0 |
| `ScrollDirection.ScrollTracker.constructor` | app/page.tsx:134-135 | the hook starts at direction up with stored position 0 |
| `ScrollDirection.ScrollTracker.OnScroll` | app/page.tsx:138-145 | the listener takes the state one `Step` on, and the stored position stays non-negative |
| `ScrollAnimation.Observe` | app/page.tsx:110-114 | a visible flag stays visible; an intersecting first entry makes it visible; nothing else does |
| `ScrollAnimation.ReplayMonotone` | app/page.tsx:111-113 | once true, the flag stays true through any sequence of callbacks |
| `ScrollAnimation.ReplayFromHidden` | app/page.tsx:105-113 | starting false, the flag ends true exactly when some callback's first entry was intersecting |
| `ScrollAnimation.FirstIntersectionLatches` | app/page.tsx:105-113 | the flag is false before the first intersecting callback and true from that callback on |
| `ScrollAnimation.VisibilityLatch.constructor` | app/page.tsx:105 | the flag starts false |
| `ScrollAnimation.VisibilityLatch.OnIntersection` | app/page.tsx:110-114 | the callback updates the flag as `Observe` says |
| `Navbar.HeaderHidden` | app/page.tsx:184 | the definition of the header test at line 184: slid out of view exactly while the direction is down; the promise that it hides on a downward scroll is stated by `Navbar.HeaderFollowsLargeMoves` and `Navbar.NavbarState.OnScroll` |
| `Navbar.NavbarState.Hidden` | app/page.tsx:184 | the definition of the header test at line 184 for the navbar's own direction hook; the law is stated by `Navbar.NavbarState.OnScroll` |
| `Navbar.HeaderFollowsLargeMoves` | app/page.tsx:183-184 | the header hides after a move down of more than 10 and shows after a move up of more than 10; smaller moves leave it as it was |
| `Navbar.NavbarState.constructor` | app/page.tsx:169-171 | the menu is closed, the page is not scrolled, and the direction hook is at its initial state |
| `Navbar.NavbarState.ToggleMenu` | app/page.tsx:253 | the menu button flips the menu flag and nothing else |
| `Navbar.NavbarState.FollowMenuLink` | app/page.tsx:273 | following a menu link (also the contact link at line 294) closes the menu |
| `Navbar.NavbarState.OnScroll` | app/page.tsx:174 | "scrolled" is exactly "more than 50 down"; the direction hook makes one step; the header is hidden after a move down of more than 10, shown after a move up of more than 10, and unchanged after a smaller move; the menu flag is kept |

## Left out

- JSX, class strings, inline styles, transition delays and the keyframe CSS: these are presentation only.
- The content arrays other than the gallery's images and categories (navigation links, news, statistics,
  testimonials and the rest): they are display data. Image fields other than id, category and title
  (src, alt, description, date) are display strings and are left out too.
- Registering and removing the IntersectionObserver and the scroll listeners: these are browser calls.
  Their callbacks are the methods `OnIntersection` and `OnScroll`.
- React's effect re-subscription and update batching. A handler is modelled as seeing the state left by
  the previous event.
- The intersection threshold and fractional `window.scrollY`: these are floating point. Intersection is a
  boolean input and scroll positions are integers.
- Image `onError` fallbacks, placeholder URLs, `encodeURIComponent`, `next/image` and the footer's year.
  These are resource loading and library calls.
- `ScrollAnimation.Observe`, `ScrollAnimation.VisibilityLatch.OnIntersection`: they require a non-empty batch
  of entries. The callback's `([entry]) =>` would throw on an empty one, but the browser never delivers an
  empty batch.
- The highlighting of the active category button: a pure display comparison.
- `Gallery.NextImage`, `Gallery.PrevImage`: they require a non-empty list. The source would take `% 0` there,
  but that case is unreachable, because an image can only be open after a grid click.
- `GalleryLaws.PrevAfterNext`, `GalleryLaws.NextAfterPrev`, `GalleryLaws.NextTimesIndex`, `GalleryLaws.NextCycle`:
  the round-trip laws are stated for images of the list with unique ids (the site's ids 1, 2, 3 are unique).
  The index arithmetic for an image that is not found is modelled, but no law is stated for it.
