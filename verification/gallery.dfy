/**
 * The gallery page (js/gallery.js): resolving an item's image URLs, the
 * category filter and text search, the card grid, the `|`-joined image list a
 * card carries for the carousel, and the page state the event handlers update.
 */
module Gallery {
  import opened Wrappers
  import opened Text
  import opened Sequences

  /**
   * One record of the gallery collection. "" stands for a missing string field
   * only where the code reads that field with `|| ''` or a truthiness test; a
   * missing `title` or `date` is written out as the text `undefined`, which the
   * model does not produce (see "Loosely typed records" in the README).
   * `tags` and `images` are [] when absent or not arrays. `imageCount` is the whole part of
   * `Number(image_count) || 0`, so 0 when it is absent or not a number.
   */
  datatype GalleryItem = GalleryItem(
    title: string,
    description: string,
    category: Option<string>,
    date: string,
    venue: string,
    location: string,
    tags: seq<string>,
    featured: bool,
    altText: string,
    images: seq<string>,
    imageDir: string,
    imageCount: int,
    image: string)

  const BaseDir: string := "../assets/images/gallery/"

  /** A name that is already a URL: it starts with `http` or `../`. */
  predicate IsUrl(name: string)
  {
    StartsWith(name, "http") || StartsWith(name, "../")
  }

  function ResolveName(name: string): string
  {
    if IsUrl(name) then name else BaseDir + name
  }

  /** `dir.replace(/\/+$/, '')` */
  function StripTrailingSlashes(dir: string): (r: string)
    ensures |r| <= |dir| && r == dir[..|r|]
    ensures r == [] || r[|r| - 1] != '/'
    ensures forall k :: |r| <= k < |dir| ==> dir[k] == '/'
  {
    if dir != [] && dir[|dir| - 1] == '/' then StripTrailingSlashes(dir[..|dir| - 1]) else dir
  }

  /** The i-th (1-based) URL of an image directory. */
  function DirUrl(dir: string, i: nat): string
  {
    BaseDir + dir + "/" + (dir + "-" + NatToString(i) + ".jpg")
  }

  /** The first n URLs of an image directory, in order. */
  function DirPattern(dir: string, n: nat): (urls: seq<string>)
    ensures |urls| == n
    ensures forall i :: 1 <= i <= n ==> urls[i - 1] == DirUrl(dir, i)
  {
    if n == 0 then [] else DirPattern(dir, n - 1) + [DirUrl(dir, n)]
  }

  /** What `getImageUrlsForItem` returns for an item. */
  function ImageUrls(item: GalleryItem): seq<string>
  {
    if |item.images| > 0 then
      seq(|item.images|, k requires 0 <= k < |item.images| => ResolveName(item.images[k]))
    else if item.imageDir != "" && item.imageCount >= 1 then
      DirPattern(StripTrailingSlashes(item.imageDir), item.imageCount)
    else if item.image != "" then
      [ResolveName(item.image)]
    else
      []
  }

  /** `getImageUrlsForItem`, with the loop that pushes the directory URLs. */
  method GetImageUrlsForItem(item: GalleryItem) returns (urls: seq<string>)
    ensures urls == ImageUrls(item)
  {
    if |item.images| > 0 {
      urls := seq(|item.images|, k requires 0 <= k < |item.images| => ResolveName(item.images[k]));
      return;
    }
    if item.imageDir != "" && item.imageCount != 0 {
      var dir := StripTrailingSlashes(item.imageDir);
      var count := item.imageCount;
      urls := [];
      var i := 1;
      while i <= count
        invariant 1 <= i <= (if count >= 1 then count + 1 else 1)
        invariant urls == DirPattern(dir, i - 1)
      {
        var filename := dir + "-" + NatToString(i) + ".jpg";
        urls := urls + [BaseDir + dir + "/" + filename];
        i := i + 1;
      }
      if |urls| > 0 {
        return;
      }
    }
    if item.image != "" {
      var url := if IsUrl(item.image) then item.image else BaseDir + item.image;
      return [url];
    }
    return [];
  }

  /** A non-empty `images` list alone decides the URLs, one per entry, prefixed unless already a URL. */
  lemma ImagesListWins(item: GalleryItem, dir: string, count: int, image: string)
    requires |item.images| > 0
    ensures ImageUrls(item) == ImageUrls(item.(imageDir := dir, imageCount := count, image := image))
    ensures |ImageUrls(item)| == |item.images|
    ensures forall k :: 0 <= k < |item.images| ==>
      ImageUrls(item)[k] == (if IsUrl(item.images[k]) then item.images[k] else BaseDir + item.images[k])
  {
  }

  /** Without a list, a directory and a count n >= 1 give exactly n URLs `<dir>/<dir>-<i>.jpg`. */
  lemma DirectoryPattern(item: GalleryItem)
    requires item.images == [] && item.imageDir != "" && item.imageCount >= 1
    ensures var d := StripTrailingSlashes(item.imageDir);
      (d == [] || d[|d| - 1] != '/') &&
      |ImageUrls(item)| == item.imageCount &&
      forall i :: 1 <= i <= item.imageCount ==>
        ImageUrls(item)[i - 1] == BaseDir + d + "/" + (d + "-" + NatToString(i) + ".jpg")
  {
    var d := StripTrailingSlashes(item.imageDir);
    forall i | 1 <= i <= item.imageCount
      ensures ImageUrls(item)[i - 1] == BaseDir + d + "/" + (d + "-" + NatToString(i) + ".jpg")
    {
      assert ImageUrls(item)[i - 1] == DirUrl(d, i);
    }
  }

  /** A count below 1 yields no directory URLs: resolution goes on to the single `image`. */
  lemma ZeroCountFallsThrough(item: GalleryItem)
    requires item.images == [] && item.imageCount < 1
    ensures ImageUrls(item) == (if item.image != "" then [ResolveName(item.image)] else [])
  {
  }

  /** An item with no list, no directory pattern and no single image has no URLs. */
  lemma NoImageSource(item: GalleryItem)
    requires item.images == [] && (item.imageDir == "" || item.imageCount < 1) && item.image == ""
    ensures ImageUrls(item) == []
  {
  }

  /** The example of a directory `foo/` holding three images. */
  lemma ThreeImageDirectory(item: GalleryItem)
    requires item.images == [] && item.imageDir == "foo/" && item.imageCount == 3
    ensures ImageUrls(item) == [
      "../assets/images/gallery/foo/foo-1.jpg",
      "../assets/images/gallery/foo/foo-2.jpg",
      "../assets/images/gallery/foo/foo-3.jpg"]
  {
    assert StripTrailingSlashes("foo/") == "foo";
    assert ImageUrls(item) == DirPattern("foo", 3);
    FooUrl(1, '1');
    FooUrl(2, '2');
    FooUrl(3, '3');
    assert DirUrl("foo", 1) == "../assets/images/gallery/foo/foo-1.jpg";
    assert DirUrl("foo", 2) == "../assets/images/gallery/foo/foo-2.jpg";
    assert DirUrl("foo", 3) == "../assets/images/gallery/foo/foo-3.jpg";
  }

  lemma FooUrl(i: nat, digit: char)
    requires 1 <= i <= 9 && digit == DigitChar(i)
    ensures DirUrl("foo", i) == "../assets/images/gallery/foo/foo-" + [digit] + ".jpg"
  {
    assert NatToString(i) == [digit];
  }

  /** Every URL is a non-empty string, either a URL of the item or under the gallery directory. */
  lemma UrlsNonEmpty(item: GalleryItem)
    ensures forall k :: 0 <= k < |ImageUrls(item)| ==>
      ImageUrls(item)[k] != "" && (IsUrl(ImageUrls(item)[k]) || StartsWith(ImageUrls(item)[k], BaseDir))
  {
    var urls := ImageUrls(item);
    forall k | 0 <= k < |urls| ensures urls[k] != "" && (IsUrl(urls[k]) || StartsWith(urls[k], BaseDir)) {
      if |item.images| > 0 {
        ResolveNameShape(item.images[k]);
      } else if item.imageDir != "" && item.imageCount >= 1 {
        var d := StripTrailingSlashes(item.imageDir);
        assert urls[k] == DirUrl(d, k + 1);
        assert urls[k] == BaseDir + (d + "/" + (d + "-" + NatToString(k + 1) + ".jpg"));
      } else {
        ResolveNameShape(item.image);
      }
    }
  }

  lemma ResolveNameShape(name: string)
    ensures ResolveName(name) != "" && (IsUrl(ResolveName(name)) || StartsWith(ResolveName(name), BaseDir))
  {
    if !IsUrl(name) {
      assert (BaseDir + name)[..|BaseDir|] == BaseDir;
    }
  }

  // ---------------------------------------------------------------------------
  // Filter and search

  /** The category pass: the item's category is the selected one. */
  predicate InCategory(item: GalleryItem, filter: string)
  {
    item.category == Some(filter)
  }

  /** The search pass: `search` (already lower-cased) occurs in a lower-cased field or tag. */
  predicate MatchesSearch(item: GalleryItem, search: string)
  {
    Contains(Lower(item.title), search) ||
    Contains(Lower(item.description), search) ||
    Contains(Lower(item.venue), search) ||
    Contains(Lower(item.location), search) ||
    exists k :: 0 <= k < |item.tags| && Contains(Lower(item.tags[k]), search)
  }

  /** `filterAndDisplayItems`: a copy of the collection, narrowed by category, then by search. */
  function FilterItems(items: seq<GalleryItem>, filter: string, search: string): seq<GalleryItem>
  {
    var byCategory := if filter != "all" then Filter(items, item => InCategory(item, filter)) else items;
    if search != "" then Filter(byCategory, item => MatchesSearch(item, search)) else byCategory
  }

  /** Whether an item survives both passes. */
  predicate Kept(item: GalleryItem, filter: string, search: string)
  {
    (filter == "all" || item.category == Some(filter)) && (search == "" || MatchesSearch(item, search))
  }

  function KeptBy(filter: string, search: string): GalleryItem -> bool
  {
    item => Kept(item, filter, search)
  }

  /** The two passes are one order-preserving filter by `Kept`. */
  lemma FilterItemsIsOneFilter(items: seq<GalleryItem>, filter: string, search: string)
    ensures FilterItems(items, filter, search) == Filter(items, KeptBy(filter, search))
  {
    var cat := (item: GalleryItem) => InCategory(item, filter);
    var txt := (item: GalleryItem) => MatchesSearch(item, search);
    if filter != "all" && search != "" {
      FilterFilter(items, cat, txt, KeptBy(filter, search));
    } else if filter != "all" {
      FilterSame(items, cat, KeptBy(filter, search));
    } else if search != "" {
      FilterSame(items, txt, KeptBy(filter, search));
    } else {
      FilterKeepsAll(items, KeptBy(filter, search));
    }
  }

  /**
   * The visible items are an order-preserving subsequence of the collection,
   * holding exactly the collection's items that pass both predicates.
   */
  lemma FilterItemsSelects(items: seq<GalleryItem>, filter: string, search: string)
    ensures IsSubsequence(FilterItems(items, filter, search), items)
    ensures forall x :: x in FilterItems(items, filter, search) <==> x in items && Kept(x, filter, search)
  {
    FilterItemsIsOneFilter(items, filter, search);
    FilterIsSubsequence(items, KeptBy(filter, search));
    var r := FilterItems(items, filter, search);
    forall x ensures x in r <==> x in items && Kept(x, filter, search) {
      if x in items && Kept(x, filter, search) {
        var k :| 0 <= k < |items| && items[k] == x;
        assert KeptBy(filter, search)(items[k]);
      }
      if x in r {
        var k :| 0 <= k < |r| && r[k] == x;
        assert KeptBy(filter, search)(r[k]);
      }
    }
  }

  /** The category `all` with an empty search shows the whole collection in order. */
  lemma FilterAllShowsEverything(items: seq<GalleryItem>)
    ensures FilterItems(items, "all", "") == items
  {
  }

  /** Filtering the visible items again by the same selection changes nothing. */
  lemma FilterItemsIdempotent(items: seq<GalleryItem>, filter: string, search: string)
    ensures FilterItems(FilterItems(items, filter, search), filter, search) == FilterItems(items, filter, search)
  {
    var once := FilterItems(items, filter, search);
    FilterItemsIsOneFilter(items, filter, search);
    FilterItemsIsOneFilter(once, filter, search);
    FilterIdempotent(items, KeptBy(filter, search));
  }

  /**
   * The search compares lower-cased text on both sides: a typed query finds an
   * item iff its lower-cased form occurs in one of the lower-cased fields, and
   * any text the title or a tag holds as typed is found whatever its case.
   */
  lemma SearchIgnoresCase(item: GalleryItem, typed: string)
    ensures typed != "" ==> (Kept(item, "all", Lower(typed)) <==>
      Contains(Lower(item.title), Lower(typed)) ||
      Contains(Lower(item.description), Lower(typed)) ||
      Contains(Lower(item.venue), Lower(typed)) ||
      Contains(Lower(item.location), Lower(typed)) ||
      exists k :: 0 <= k < |item.tags| && Contains(Lower(item.tags[k]), Lower(typed)))
    ensures Contains(item.title, typed) ==> Kept(item, "all", Lower(typed))
    ensures forall k :: 0 <= k < |item.tags| && Contains(item.tags[k], typed) ==>
      Kept(item, "all", Lower(typed))
  {
    if Contains(item.title, typed) {
      ContainsLower(item.title, typed);
    }
    forall k | 0 <= k < |item.tags| && Contains(item.tags[k], typed)
      ensures Kept(item, "all", Lower(typed))
    {
      ContainsLower(item.tags[k], typed);
    }
  }

  // ---------------------------------------------------------------------------
  // Rendering

  /** The content of one `.gallery-item` card. */
  datatype Card = Card(
    category: Option<string>,
    dataImages: string,
    mainImage: string,
    alt: string,
    title: string,
    description: string,
    date: string,
    venue: string,
    location: string,
    hasVenueBlock: bool,
    featured: bool)

  /** What `displayGalleryItems` writes into the grid. */
  datatype GalleryView = NoResults | Cards(cards: seq<Card>) | LoadError

  function MakeCard(item: GalleryItem, urls: seq<string>): Card
    requires |urls| > 0
  {
    Card(item.category, Join(urls, '|'), urls[0],
         if item.altText != "" then item.altText else item.title,
         item.title, item.description, item.date, item.venue, item.location,
         item.venue != "" || item.location != "", item.featured)
  }

  /** `createGalleryItemHTML`: no card for an item without image URLs. */
  function CardFor(item: GalleryItem): Option<Card>
  {
    var urls := ImageUrls(item);
    if |urls| == 0 then None else Some(MakeCard(item, urls))
  }

  /** `items.map(createGalleryItemHTML).filter(Boolean)` */
  function CardsFor(items: seq<GalleryItem>): seq<Card>
  {
    if items == [] then []
    else
      var rest := CardsFor(items[1..]);
      match CardFor(items[0])
      case Some(card) => [card] + rest
      case None => rest
  }

  /** `displayGalleryItems` */
  function DisplayGalleryItems(items: seq<GalleryItem>): GalleryView
  {
    if |items| == 0 then NoResults else Cards(CardsFor(items))
  }

  predicate HasImages(item: GalleryItem)
  {
    |ImageUrls(item)| > 0
  }

  /** The cards of items that all have image URLs, one each, in order. */
  function CardsOf(kept: seq<GalleryItem>): seq<Card>
    requires forall k :: 0 <= k < |kept| ==> HasImages(kept[k])
  {
    if kept == [] then []
    else
      assert HasImages(kept[0]);
      [MakeCard(kept[0], ImageUrls(kept[0]))] + CardsOf(kept[1..])
  }

  lemma {:induction false} CardsForIsCardsOfKept(items: seq<GalleryItem>)
    ensures CardsFor(items) == CardsOf(Filter(items, HasImages))
  {
    if items != [] {
      var rest := items[1..];
      CardsForIsCardsOfKept(rest);
      if HasImages(items[0]) {
        assert Filter(items, HasImages) == [items[0]] + Filter(rest, HasImages);
        assert CardFor(items[0]) == Some(MakeCard(items[0], ImageUrls(items[0])));
      } else {
        assert Filter(items, HasImages) == Filter(rest, HasImages);
        assert CardFor(items[0]) == None;
      }
    }
  }

  lemma {:induction false} CardsOfAt(kept: seq<GalleryItem>, k: nat)
    requires forall j :: 0 <= j < |kept| ==> HasImages(kept[j])
    requires k < |kept|
    ensures |CardsOf(kept)| == |kept|
    ensures CardsOf(kept)[k] == MakeCard(kept[k], ImageUrls(kept[k]))
  {
    var rest := kept[1..];
    assert CardsOf(kept) == [MakeCard(kept[0], ImageUrls(kept[0]))] + CardsOf(rest);
    if k > 0 {
      CardsOfAt(rest, k - 1);
      assert rest[k - 1] == kept[k];
    } else if rest != [] {
      CardsOfAt(rest, 0);
    }
  }

  /**
   * Cards are made, in order, from exactly the items that have image URLs;
   * each shows its first URL and carries all of them joined by `|`.
   */
  lemma CardsForKeptItems(items: seq<GalleryItem>)
    ensures var kept := Filter(items, HasImages);
      |CardsFor(items)| == |kept| &&
      forall k :: 0 <= k < |kept| ==>
        CardsFor(items)[k].mainImage == ImageUrls(kept[k])[0] &&
        CardsFor(items)[k].dataImages == Join(ImageUrls(kept[k]), '|') &&
        CardsFor(items)[k].title == kept[k].title
  {
    var kept := Filter(items, HasImages);
    CardsForIsCardsOfKept(items);
    if kept != [] {
      CardsOfAt(kept, 0);
    }
    forall k | 0 <= k < |kept|
      ensures CardsFor(items)[k] == MakeCard(kept[k], ImageUrls(kept[k]))
    {
      CardsOfAt(kept, k);
    }
  }

  /** The placeholder appears only for an empty list; a list whose items all lack images shows an empty grid. */
  lemma PlaceholderOnlyForEmpty(items: seq<GalleryItem>)
    ensures DisplayGalleryItems(items) == NoResults <==> items == []
    ensures items != [] && (forall k :: 0 <= k < |items| ==> !HasImages(items[k])) ==>
      DisplayGalleryItems(items) == Cards([])
  {
    if items != [] && forall k :: 0 <= k < |items| ==> !HasImages(items[k]) {
      CardsForIsCardsOfKept(items);
      FilterKeepsNone(items, HasImages);
    }
  }

  // ---------------------------------------------------------------------------
  // The image list of a card, read back on click

  /** The click handler: `data-images` split on `|`, empty pieces dropped; nothing for an empty attribute. */
  function ImagesOfCard(dataImages: string): seq<string>
  {
    if dataImages == "" then [] else Filter(Split(dataImages, '|'), (piece: string) => piece != "")
  }

  /** Joining non-empty URLs without `|` and reading them back gives the same list. */
  lemma PipeRoundTrip(urls: seq<string>)
    requires forall k :: 0 <= k < |urls| ==> urls[k] != "" && '|' !in urls[k]
    ensures ImagesOfCard(Join(urls, '|')) == urls
  {
    if urls != [] {
      SplitJoin(urls, '|');
      FilterKeepsAll(urls, (piece: string) => piece != "");
      assert Join(urls, '|') != "" by {
        if |urls| > 1 {
          assert Join(urls, '|')[|urls[0]|] == '|';
        }
      }
    }
  }

  /** A URL holding `|` comes back from the card as two images. */
  lemma PipeSplitsBarredUrl()
    ensures ImagesOfCard(Join(["a|b.jpg"], '|')) == ["a", "b.jpg"]
  {
    assert "a|b.jpg" == "a" + ['|'] + "b.jpg";
    SplitAfterPiece("a", "b.jpg", '|');
    SplitNoSeparator("b.jpg", '|');
  }

  /** Clicking a card opens the carousel on its item's own URLs when none holds `|`. */
  lemma ClickedCardShowsItemImages(items: seq<GalleryItem>, k: nat)
    requires k < |Filter(items, HasImages)|
    requires var item := Filter(items, HasImages)[k];
      forall j :: 0 <= j < |ImageUrls(item)| ==> '|' !in ImageUrls(item)[j]
    ensures k < |CardsFor(items)|
    ensures ImagesOfCard(CardsFor(items)[k].dataImages) == ImageUrls(Filter(items, HasImages)[k])
  {
    CardsForKeptItems(items);
    UrlsNonEmpty(Filter(items, HasImages)[k]);
    PipeRoundTrip(ImageUrls(Filter(items, HasImages)[k]));
  }

  // ---------------------------------------------------------------------------
  // Page state

  /** What the data provider gave: a failure, something other than an array, or the items. */
  datatype GalleryFetch = FetchFailed | NotAnArray | Fetched(items: seq<GalleryItem>)

  /** The page's closure state: the collection, the current filter and search, and the grid. */
  class GalleryPage {
    var allItems: seq<GalleryItem>
    var currentFilter: string
    var currentSearch: string
    var view: GalleryView
    /** Whether the filter, search and click handlers were registered. */
    var wired: bool

    /** `initializeGallery` */
    constructor Initialize(fetch: GalleryFetch)
      ensures currentFilter == "all" && currentSearch == ""
      ensures fetch.FetchFailed? ==> allItems == [] && view == LoadError && !wired
      ensures fetch.NotAnArray? ==> allItems == [] && view == NoResults && wired
      ensures fetch.Fetched? ==> allItems == fetch.items && view == DisplayGalleryItems(fetch.items) && wired
    {
      currentFilter := "all";
      currentSearch := "";
      match fetch
      case FetchFailed =>
        allItems := [];
        view := LoadError;
        wired := false;
      case NotAnArray =>
        allItems := [];
        view := DisplayGalleryItems([]);
        wired := true;
      case Fetched(items) =>
        allItems := items;
        view := DisplayGalleryItems(items);
        wired := true;
    }

    /** `filterAndDisplayItems`: the collection itself is left as it was. */
    method FilterAndDisplayItems()
      modifies this`view
      ensures view == DisplayGalleryItems(FilterItems(allItems, currentFilter, currentSearch))
    {
      view := DisplayGalleryItems(FilterItems(allItems, currentFilter, currentSearch));
    }

    /** The search input handler: the text is stored lower-cased and the grid redrawn. */
    method HandleSearchInput(typed: string)
      requires wired
      modifies this`currentSearch, this`view
      ensures currentSearch == Lower(typed)
      ensures view == DisplayGalleryItems(FilterItems(allItems, currentFilter, Lower(typed)))
    {
      currentSearch := Lower(typed);
      FilterAndDisplayItems();
    }

    /** `handleFilterClick`: the clicked button's category becomes the filter. */
    method HandleFilterClick(category: string)
      requires wired
      modifies this`currentFilter, this`view
      ensures currentFilter == category
      ensures view == DisplayGalleryItems(FilterItems(allItems, category, currentSearch))
    {
      currentFilter := category;
      FilterAndDisplayItems();
    }
  }
}
