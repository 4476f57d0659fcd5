# Gallery and news pages — a Dafny model

This project models the logic inside two page scripts of a static homepage.

- `js/gallery.js` turns a JSON collection of gallery items into a grid of cards. It resolves each item's image URLs, filters by category and free-text search, drops items without images, and opens an image carousel when a card is clicked.
- `js/news-list.js` turns a JSON collection of news records into a list. It sorts the list newest first, builds one filter button per news type present, filters by type and search, and shows one of two "empty" placeholders.

The DOM is abstracted. What a container shows is a datatype: `GalleryView`, `NewsView`, `Card` and `Entry`. The closure variables that the event handlers reassign are the fields of `Gallery.GalleryPage` and `News.NewsPage`. The carousel is `GalleryModal.Carousel`. It lives in a `GalleryModal.Document` that records which overlays are attached to the body and which `keydown` handlers are registered.

Modules:

- `Wrappers` (`wrappers.dfy`): `Option`.
- `Text` (`text.dfy`) holds the JavaScript string operations the scripts use:
  - ASCII `toLowerCase`, `startsWith` and `includes`;
  - `join` and `split` on `|`;
  - the decimal text of a counter;
  - `encodeURIComponent`, which percent-encodes UTF-8 bytes, with an ASCII decoder as its partner.
- `Sequences` (`sequences.dfy`) holds the array operations:
  - `filter`, with an explicit subsequence witness;
  - the first-occurrence deduplication of `Array.from(new Set(...))`;
  - `indexOf`;
  - a stable insertion sort standing for `Array.prototype.sort` with a numeric comparator.
- `Gallery` (`gallery.dfy`), `GalleryModal` (`gallery_modal.dfy`) and `News` (`news.dfy`) hold the page logic.

Behaviour of the code worth knowing:

- `preferredOrder.indexOf` is -1 for a type outside the list, so such types sort before every preferred type (`News.ButtonTypesOrder`).
- `updateImage` wraps to the opposite end rather than taking a modulus: below 0 goes to the last index, and past the end goes to 0. `GalleryModal.WrapIsModular` shows the two agree one step from a valid index, which is the only way the code calls it.
- A news record whose `type` is the literal `all` gets a type button of its own with value `all`. Clicking it lists every record, not only the records of that type, because `all` is also the value of "All Types" (`News.TypeNamedAllListsEverything`).

## Model

| member | source | states |
|---|---|---|
| `Gallery.ResolveName` | js/gallery.js:76-79 | Definition: a name starting with `http` or `../` is kept, any other gets `../assets/images/gallery/` in front. `Gallery.ResolveNameShape` and `Gallery.UrlsNonEmpty` state its properties. |
| `Gallery.ImageUrls` | js/gallery.js:72-103 | Definition of the resolution: a non-empty list, else a directory with a count of at least 1, else `image`, else nothing. The lemmas below state each branch. |
| `Gallery.GetImageUrlsForItem` | js/gallery.js:72-103 | The method, with the loop that pushes `<dir>-<i>.jpg`, returns exactly `ImageUrls(item)`, the resolution the lemmas below describe. |
| `Gallery.ImagesListWins` | js/gallery.js:75-80 | A non-empty `images` list alone decides the result, whatever `image_dir`, `image_count` and `image` hold. There is one URL per entry, unchanged if it starts with `http` or `../` and otherwise prefixed with `../assets/images/gallery/`. |
| `Gallery.StripTrailingSlashes` | js/gallery.js:84 | The result is the directory with its whole run of trailing `/` removed. It is a prefix of the directory, does not end in `/`, and only `/` was cut. |
| `Gallery.DirPattern` | js/gallery.js:86-90 | The loop's list has n entries, and entry i-1 is the URL of image i. |
| `Gallery.DirectoryPattern` | js/gallery.js:83-91 | Without a list, a directory and a count n ≥ 1 give exactly n URLs. The i-th is `base + dir + "/" + dir + "-" + i + ".jpg"`, with `dir` stripped of trailing slashes. |
| `Gallery.ZeroCountFallsThrough` | js/gallery.js:85-102 | A count that converts to less than 1 gives no directory URLs. Resolution then falls through to the single `image`, else `[]`. |
| `Gallery.NoImageSource` | js/gallery.js:94-102 | With no list, no usable directory pattern and no `image`, the result is empty. |
| `Gallery.ThreeImageDirectory` | js/gallery.js:83-91 | The directory `foo/` with count 3 gives `foo/foo-1.jpg` through `foo/foo-3.jpg` under the gallery directory. |
| `Gallery.UrlsNonEmpty` | js/gallery.js:73-99 | Every resolved URL is non-empty. Each is either already a URL (`http…` or `../…`) or starts with the gallery directory. |
| `Gallery.MatchesSearch` | js/gallery.js:223-240 | Definition: the search occurs in the lower-cased title, description, venue or location, or in one lower-cased tag. `Gallery.FilterItemsSelects` states the filter it drives. |
| `Gallery.FilterItems` | js/gallery.js:213-242 | Definition: a category pass unless the filter is `all`, then a search pass unless the search is empty. Its properties are the four lemmas that follow. |
| `Gallery.FilterItemsIsOneFilter` | js/gallery.js:213-242 | The category pass followed by the search pass equals a single order-preserving filter by "category matches and search matches". |
| `Gallery.FilterItemsSelects` | js/gallery.js:214-241 | The visible items are an order-preserving subsequence of the collection. An item is visible iff the filter is `all` or equals its category, and the search is empty or occurs in its lower-cased title, description, venue, location or one of its tags. |
| `Gallery.FilterAllShowsEverything` | js/gallery.js:214-222 | Filter `all` with an empty search shows the whole collection in order. |
| `Gallery.FilterItemsIdempotent` | js/gallery.js:216-242 | Applying the same filter and search to the visible items again changes nothing. |
| `Gallery.SearchIgnoresCase` | js/gallery.js:224-240 | A typed query is found iff, with both sides lower-cased, it occurs in the title, description, venue, location or some tag, whatever case it was typed in. Any text the title or a tag holds as typed is found. |
| `Gallery.MakeCard` | js/gallery.js:106-142 | Definition: the card of an item with at least one URL shows the first URL and carries all of them joined by `\|`. |
| `Gallery.CardFor` | js/gallery.js:110-111 | Definition: an item without URLs renders to nothing. |
| `Gallery.CardsFor` | js/gallery.js:155-158 | Definition: the cards of the items, with the empty renders dropped. `Gallery.CardsForKeptItems` states the result. |
| `Gallery.DisplayGalleryItems` | js/gallery.js:149-160 | Definition: the placeholder for an empty list, else the cards. `Gallery.PlaceholderOnlyForEmpty` states the result. |
| `Gallery.CardsForKeptItems` | js/gallery.js:106-158 | Cards are made, in order, from exactly the items that have image URLs. Each card shows its item's first URL and carries all of them joined by `\|`. |
| `Gallery.PlaceholderOnlyForEmpty` | js/gallery.js:149-160 | The "no results" placeholder appears iff the list is empty. A non-empty list in which no item has images renders an empty grid, not the placeholder. |
| `Gallery.ImagesOfCard` | js/gallery.js:188-192 | Definition: the card's `data-images` split on `\|` with empty pieces dropped; nothing for an empty attribute. `Gallery.PipeRoundTrip` and `Gallery.PipeSplitsBarredUrl` state its behaviour. |
| `Gallery.PipeRoundTrip` | js/gallery.js:188-192 | Reading back a list joined with `\|` (the join is at line 114) gives the same list when the URLs are non-empty and hold no `\|`. |
| `Gallery.PipeSplitsBarredUrl` | js/gallery.js:191 | A URL containing `\|` comes back as two images. |
| `Gallery.ClickedCardShowsItemImages` | js/gallery.js:184-194 | Clicking the k-th card gives the carousel exactly the URLs of the k-th item that has images, when none of those URLs holds `\|`. |
| `Gallery.GalleryPage.Initialize` | js/gallery.js:14-29 | A failed load shows the error view and wires nothing. A non-array result counts as an empty collection. Otherwise the whole collection is displayed with filter `all` and an empty search. |
| `Gallery.GalleryPage.FilterAndDisplayItems` | js/gallery.js:213-245 | The grid becomes the display of the filtered collection. Only the view changes, not the collection. |
| `Gallery.GalleryPage.HandleSearchInput` | js/gallery.js:176-179 | The search is stored lower-cased, and the grid is redrawn with it. |
| `Gallery.GalleryPage.HandleFilterClick` | js/gallery.js:200-210 | The clicked category becomes the filter, and the grid is redrawn with it. |
| `GalleryModal.Wrap` | js/gallery.js:275-277 | The index settled on always lies in [0, length), and an index already in range is kept. |
| `GalleryModal.WrapIsModular` | js/gallery.js:275-277 | One step forward or back from a valid index is the same step taken modulo the length. |
| `GalleryModal.PreviousUndoesNext` | js/gallery.js:296-309 | Previous after next, and next after previous, return to the same image. |
| `GalleryModal.StepsForwardWrapsOnce` | js/gallery.js:275-278 | Up to one full round, n steps forward move n places and wrap past the end at most once. |
| `GalleryModal.FullRoundReturns` | js/gallery.js:275-278 | Stepping forward as many times as there are images returns to the starting image. |
| `GalleryModal.Carousel.Open` | js/gallery.js:248-323 | Opening shows image 0 of a non-empty list, attaches the overlay and registers its key handler. |
| `GalleryModal.OpenGalleryModal` | js/gallery.js:248-249 | An empty list opens nothing and leaves the document unchanged. A non-empty list opens a fresh carousel at index 0. |
| `GalleryModal.Carousel.Position` | js/gallery.js:280-282 | The counter's first number is index + 1, always between 1 and the number of images. |
| `GalleryModal.Carousel.Shown` | js/gallery.js:279 | The image on show (`modalImg.src`) is always one of the carousel's images. |
| `GalleryModal.Carousel.CounterText` | js/gallery.js:281 | Definition: the counter reads the decimal position, " / ", and the decimal number of images. `GalleryModal.Carousel.Position` bounds the position. |
| `GalleryModal.Carousel.UpdateImage` | js/gallery.js:275-283 | The new index is the wrapped requested index and stays valid. |
| `GalleryModal.Carousel.ShowPrevious` | js/gallery.js:302-305 | Previous goes from the first image to the last, and otherwise one back. |
| `GalleryModal.Carousel.ShowNext` | js/gallery.js:307-310 | Next goes from the last image to the first, and otherwise one forward. |
| `GalleryModal.Carousel.Close` | js/gallery.js:285-290 | Closing detaches this overlay and unregisters its key handler. Nothing else changes, so a second close changes nothing. |
| `GalleryModal.Carousel.OnKeyDown` | js/gallery.js:292-300 | Escape closes. The left and right arrows step back and forward with wrap-around. Any other key changes nothing. |
| `GalleryModal.Carousel.PressKey` | js/gallery.js:289-323 | While the handler is registered, a key has exactly `onKeyDown`'s effect: Escape closes, the arrows step back or forward with wrap-around, and any other key changes nothing. After a close, every key changes nothing. |
| `GalleryModal.Carousel.ClickOverlay` | js/gallery.js:312-321 | A click on the overlay background closes the carousel. A click on the content panel changes nothing. |
| `GalleryModal.OpenNavigateClose` | js/gallery.js:248-323 | After open, previous, next, close, close and Escape, the document is exactly as it was: no overlay or key handler is leaked. |
| `Text.Lower` | js/gallery.js:224-227 | Definition: `toLowerCase`, character by character, on ASCII letters. |
| `Text.StartsWith` | js/gallery.js:77 | Definition: `startsWith`, the text begins with the prefix. `Gallery.ResolveNameShape` relies on it. |
| `Text.Contains` | js/gallery.js:235-238 | Definition: `includes`, an occurrence at some position. `Text.ContainsWitness` and `Text.ContainsLower` state its properties. |
| `Text.ContainsLower` | js/gallery.js:224-239 | Lower-casing both the text and the query keeps every occurrence, so the search is case-insensitive. |
| `Text.Join` | js/gallery.js:114 | Definition: `join('\|')`, the pieces with the separator between them. |
| `Text.Split` | js/gallery.js:191 | `split('\|')` always gives at least one piece. |
| `Text.SplitJoin` | js/gallery.js:191 | `split` undoes `join` when no piece holds the separator. |
| `Text.NatToString` | js/gallery.js:88 | The decimal text of the counter is non-empty, all digits, and has no leading zero unless the number is 0. With `Text.ParseNatToString` this fixes the text `${i}` writes. |
| `Text.ParseNatToString` | js/gallery.js:88 | The decimal text of the counter `i` reads back as `i`. |
| `Text.EncodeUriComponent` | js/news-list.js:120-122 | Definition: each character is kept if unreserved, else written as `%XX` per UTF-8 byte. |
| `Text.EncodeUriComponentSafe` | js/news-list.js:120-122 | The encoded link id holds only unreserved characters and `%`, so it cannot end the `id` query parameter. |
| `Text.PercentDecodeEncode` | js/news-list.js:120-122 | Decoding the encoded ASCII id gives the id back. |
| `Sequences.Filter` | js/news-list.js:190 | `Array.prototype.filter`: the result is no longer than the input, holds only elements of the input that pass, and holds every one that passes. |
| `Sequences.FilterIsSubsequence` | js/news-list.js:190-204 | A filter keeps an order-preserving subsequence of its input. |
| `Sequences.Dedup` | js/news-list.js:71-77 | The `Set` keeps each value once, and exactly the values present. |
| `Sequences.DedupFirstOccurrenceOrder` | js/news-list.js:71-77 | The `Set` keeps values in the order of their first occurrence. |
| `Sequences.IndexOf` | js/news-list.js:81 | `indexOf` is -1 iff the value is absent. Otherwise it is the first position of the value. |
| `Sequences.SortBy` | js/news-list.js:80-82 | Definition: a stable insertion sort by a numeric key. Its properties are the two lemmas that follow. |
| `Sequences.SortBySortedPermutation` | js/news-list.js:80-82 | The sort yields non-decreasing keys and a permutation of its input. |
| `Sequences.SortByStable` | js/news-list.js:80-82 | The sort is stable: the elements with any one key keep their input order. |
| `News.SortByDate` | js/news-list.js:27 | Definition: the stable sort by date, newest first. `News.SortByDateNewestFirst` states the result. |
| `News.SortByDateNewestFirst` | js/news-list.js:27 | The loaded news is sorted newest first, holds the same records, and keeps the loaded order among records of equal date. |
| `News.TypeLabel` | js/news-list.js:49-93 | Definition: `typeLabelMap[t] \|\| t`, a lookup in the seven-entry label map with the raw type as fallback. |
| `News.TypeLabelCapitalises` | js/news-list.js:49-57 | Each of the seven known types is labelled by itself with a capital first letter. Any other type is labelled by its raw value. |
| `News.PresentTypes` | js/news-list.js:71-77 | Definition: the distinct non-empty types, in order of first appearance. |
| `News.ButtonTypes` | js/news-list.js:80-82 | Definition: the present types sorted by their position in the preferred order. |
| `News.ButtonTypesArePresentTypes` | js/news-list.js:71-82 | The button types are exactly the distinct non-empty `type` values of the collection, each once. |
| `News.ButtonTypesOrder` | js/news-list.js:60-82 | The button types follow the preferred order. Types outside it (index -1) come before every preferred type and keep their first-appearance order. |
| `News.PresentTypesFirstAppearance` | js/news-list.js:71-77 | Before sorting, types are in the order of their first appearance among the non-empty types. |
| `News.TypeButtons` | js/news-list.js:84-97 | "All Types" (value `all`) comes first, and button k+1 carries the k-th button type. What the buttons offer is stated by the four lemmas that follow. |
| `News.TypeButtonsOfferPresentTypes` | js/news-list.js:71-97 | After "All Types", every button's value is a non-empty type some record has, and every such type has a button. |
| `News.TypeButtonsDistinct` | js/news-list.js:71-97 | After "All Types", no two buttons carry the same value. |
| `News.TypeButtonsInPreferredOrder` | js/news-list.js:80-97 | After "All Types", the buttons follow the preferred order, with types outside it first. |
| `News.TypeButtonsLabelled` | js/news-list.js:87-93 | The first button reads "All Types", and every other button shows the label of its own value. |
| `News.TypeNamedAllListsEverything` | js/news-list.js:87-93 | A record whose type is `all` gets a second button with value `all`, and filtering by `all` lists every record, not only those of type `all`. |
| `News.ActiveFilterValue` | js/news-list.js:210-216 | The value is `all` with no filter container or no active type button, and the active button's value otherwise. `News.ActiveFilterListsItems` and the page invariant give it meaning. |
| `News.ButtonValueListsItems` | js/news-list.js:84-97 | The value of any button is `all` or a type some record has, and with no search filtering by it never gives an empty list. |
| `News.ActiveFilterListsItems` | js/news-list.js:184-216 | When the active button is one of the page's buttons, the value `getActiveFilterValue` reads is `all` or a type some record has, and with no search the list is never empty. |
| `News.MatchesSearch` | js/news-list.js:195-204 | Definition: the search occurs in the lower-cased title, summary or content. `News.ApplyFiltersSelects` and `News.SearchIgnoresCase` state what it selects. |
| `News.ApplyFilters` | js/news-list.js:184-205 | Definition: a type pass unless the active value is `all`, then a search pass unless the search is empty. Its properties are the four lemmas that follow. |
| `News.ApplyFiltersIsOneFilter` | js/news-list.js:184-205 | The type pass followed by the search pass equals a single order-preserving filter by "type matches and search matches". |
| `News.ApplyFiltersSelects` | js/news-list.js:185-205 | The listed items are an order-preserving subsequence of the news. An item is listed iff the active value is `all` or equals its type, and the search is empty or occurs in its lower-cased title, summary or content. |
| `News.ApplyFiltersAllShowsEverything` | js/news-list.js:185-194 | `all` with an empty search lists the whole sorted collection. |
| `News.ApplyFiltersIdempotent` | js/news-list.js:185-205 | Filtering the listed items again by the same selection changes nothing. |
| `News.ButtonTypeHasItems` | js/news-list.js:71-82 | With no search, filtering by a type that has a button never gives an empty list. |
| `News.ButtonOffersItems` | js/news-list.js:84-97 | On a page with news, every button, "All Types" included, lists something when there is no search. |
| `News.SearchIgnoresCase` | js/news-list.js:176-202 | A typed query is found iff, with both sides lower-cased, it occurs in the title, the summary or the content, whatever case it was typed in. Any text the title holds as typed is found. |
| `News.ListEntry` | js/news-list.js:112-136 | Definition of one entry's content. `News.ListEntryFallbacks` states its fallbacks. |
| `News.ListEntryFallbacks` | js/news-list.js:112-136 | The summary shown is `summary`, else `content`. The paragraph is omitted iff both are empty. The badge appears iff `type` is non-empty. The link id is `slug`, else `id`, encoded so that it decodes back and holds no delimiter. |
| `News.DisplayNews` | js/news-list.js:103-110 | Definition: "No news found." for an empty list, else one entry per item. `News.DisplayNewsShape` states the result. |
| `News.DisplayNewsShape` | js/news-list.js:103-110 | An empty result shows "No news found." and nothing else does. Otherwise there is one entry per item, in order. |
| `News.NewsPage.Buttons` | js/news-list.js:84-97 | Definition: the type buttons on the page are `TypeButtons` of the loaded news once the page is wired with a filter container, and none otherwise. The page invariant relates the active button to them. |
| `News.NewsPage.Initialize` | js/news-list.js:17-41 | A failed load shows the error view. An empty collection shows "No news yet." with no sorting, no buttons and no wiring. Otherwise the news is sorted newest first, the type buttons are built with "All Types" active, and everything is listed. The page invariant holds: a wired page has news, with a filter container some button is active, and the active button is one of the page's buttons. |
| `News.NewsPage.ApplyFiltersToView` | js/news-list.js:184-208 | The list becomes the display of the collection filtered by the active value and the search. The collection itself is unchanged. On a wired page with no search, the list is never empty. |
| `News.NewsPage.HandleSearch` | js/news-list.js:176-179 | The search is stored lower-cased, and the list is redrawn with it. The invariant is kept, and clearing the search never shows "No news found.". |
| `News.NewsPage.HandleFilterClick` | js/news-list.js:155-174 | The clicked button becomes the active one, and the list is redrawn by its value. The invariant is kept, and with no search the list is never empty. |

## Left out

- Fetching through the data manager (`getGalleryItems`, `getGalleryCategories`, `getNews`). These are asynchronous foreign calls. Their outcome is a parameter (`GalleryFetch`, `NewsFetch`), and the try/catch becomes the `LoadError` view.
- The gallery's category buttons (`createFilterButtons`, js/gallery.js:32-45). They only print the entries of the externally supplied category map. The clicked category is a parameter of `HandleFilterClick`.
- `formatYearMonthOnly` and `formatDate`. They depend on `Date` parsing and locale formatting, so cards and entries carry the raw date string.
- `News.SortByDateNewestFirst`: `new Date(date)` is abstracted to an integer `timestamp` per record. A date that does not parse gives `NaN` in JavaScript, which makes the comparator inconsistent; that case is not modelled.
- Lower-casing is ASCII-only, and `encodeURIComponent` is decoded back only for ASCII text. Lone UTF-16 surrogates, on which `encodeURIComponent` throws, cannot occur in Dafny strings.
- The HTML template text, CSS classes and attributes. Renders are the datatypes `Card`, `Entry`, `GalleryView` and `NewsView`.
- Attribute round trips. The code writes the joined image list into `data-images` and each type into `data-value` as raw text (js/gallery.js:129; js/news-list.js:91), then reads them back through `dataset` (js/gallery.js:188; js/news-list.js:215). A `"` ends the attribute early, and a character reference such as `&amp;` is decoded on the way back. The model reads every attribute back unchanged. So `Gallery.ClickedCardShowsItemImages`, `News.ButtonValueListsItems`, `News.ActiveFilterListsItems`, `News.ButtonOffersItems` and `News.NewsPage.HandleFilterClick` assume URLs and types hold no `"` and no `&`-reference. For such a URL the carousel gets a different list, and for such a type the button's value matches no record, so clicking it shows "No news found.".
- The missing-container guards. Without `#news-list` the news page does nothing at all (js/news-list.js:7). Without `.gallery-grid` the gallery still builds its category buttons and registers the filter and search handlers (js/gallery.js:19-24, 166-180). Only the grid's rendering is skipped, and so is the card click handler (js/gallery.js:147, 183). The model always has both containers.
- DOM event routing (`closest`, `classList`, `stopPropagation`). A click reaches the model as a call on the clicked element's handler, with its data value.
- Loosely typed records. Fields are strings. A field the code reads with a fallback (`|| ''`, `summary || content`, `alt_text || title`, `slug || id`) holds "" for a missing or falsy value. Where the code writes a field with no final fallback, a missing value renders as the text `undefined`: the `title` of a card or entry (js/gallery.js:131, 133; js/news-list.js:131), a card's `date`, which `formatYearMonthOnly` returns unchanged when it does not parse (js/gallery.js:64, 108, 136), a card's alt text when both `alt_text` and `title` are missing, and the link `?id=undefined` when both `slug` and `id` are missing (js/news-list.js:120-122). The model holds these fields as strings and does not produce that `undefined` text. `tags` and `images` are sequences, with [] standing for a missing or non-array value. A non-string entry in `images` or `tags` (which the scripts would throw on, or stringify) is not modelled, nor are type names such as `constructor` that `typeLabelMap[t]` would find on the object prototype.
- `image_count` is modelled as an integer standing for `Number(image_count) || 0`, with a fractional count read as its whole part. Every falsy, non-numeric or below-1 value behaves alike in the code: no directory URLs, and resolution falls through.
- An infinite `image_count` (JSON `1e309`, or the string `"Infinity"`) makes `Number(...)` give `Infinity`. The loop at js/gallery.js:87 then never ends. An integer cannot express this, so the model always terminates.
- `GalleryModal.Carousel.Open`: the code takes a start index but is only ever called with 0, so the model opens at 0. Only one carousel at a time is assumed, as in the code; nothing enforces it.
