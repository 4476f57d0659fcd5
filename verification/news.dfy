/**
 * The news list page (js/news-list.js): the type filter buttons built from the
 * types present in the collection, the type filter and text search, the list
 * entries with their field fallbacks, the two empty-list placeholders, and the
 * page state the event handlers update.
 */
module News {
  import opened Wrappers
  import opened Text
  import opened Sequences

  /**
   * One record of the news collection. `kind` is the record's `type` ("" when
   * missing); `timestamp` stands for `new Date(date)`; `id` is the id as the
   * text it converts to. Other missing string fields are "".
   */
  datatype NewsItem = NewsItem(
    title: string,
    date: string,
    timestamp: int,
    kind: string,
    summary: string,
    content: string,
    slug: string,
    id: string)

  // ---------------------------------------------------------------------------
  // Loading order

  /** The comparator `new Date(b.date) - new Date(a.date)` sorts by this key, newest first. */
  function DateKey(): NewsItem -> int
  {
    (item: NewsItem) => -item.timestamp
  }

  /** `allNews.sort(...)` by date, newest first. */
  function SortByDate(news: seq<NewsItem>): seq<NewsItem>
  {
    SortBy(news, DateKey())
  }

  /** Newest first, the same items, and items of the same date in their loaded order. */
  lemma SortByDateNewestFirst(news: seq<NewsItem>, t: int)
    ensures var r := SortByDate(news);
      (forall k, l :: 0 <= k < l < |r| ==> r[k].timestamp >= r[l].timestamp) &&
      multiset(r) == multiset(news) &&
      Filter(r, KeyIs(DateKey(), -t)) == Filter(news, KeyIs(DateKey(), -t))
  {
    SortBySortedPermutation(news, DateKey());
    SortByStable(news, DateKey(), -t);
  }

  // ---------------------------------------------------------------------------
  // Filter buttons

  const PreferredOrder: seq<string> :=
    ["publication", "admission", "graduation", "career", "award", "service", "media"]

  /** `typeLabelMap`: the display label of each known type. */
  const TypeLabels: map<string, string> := map[
    "publication" := "Publication", "admission" := "Admission", "graduation" := "Graduation",
    "career" := "Career", "award" := "Award", "service" := "Service", "media" := "Media"]

  /** `typeLabelMap[t] || t` */
  function TypeLabel(t: string): string
  {
    if t in TypeLabels then TypeLabels[t] else t
  }

  /** A known type is labelled by itself with a capital first letter; any other type by its raw value. */
  lemma TypeLabelCapitalises(t: string)
    ensures t in PreferredOrder ==> t != "" && TypeLabel(t) == [UpperChar(t[0])] + t[1..]
    ensures t !in PreferredOrder ==> TypeLabel(t) == t
  {
    if t in PreferredOrder {
      var k :| 0 <= k < |PreferredOrder| && PreferredOrder[k] == t;
      if k == 0 { Capitalised("publication", "Publication"); }
      else if k == 1 { Capitalised("admission", "Admission"); }
      else if k == 2 { Capitalised("graduation", "Graduation"); }
      else if k == 3 { Capitalised("career", "Career"); }
      else if k == 4 { Capitalised("award", "Award"); }
      else if k == 5 { Capitalised("service", "Service"); }
      else { Capitalised("media", "Media"); }
    } else {
      assert PreferredOrder[0] == "publication" && PreferredOrder[1] == "admission";
      assert PreferredOrder[2] == "graduation" && PreferredOrder[3] == "career";
      assert PreferredOrder[4] == "award" && PreferredOrder[5] == "service" && PreferredOrder[6] == "media";
    }
  }

  lemma Capitalised(t: string, shown: string)
    requires t != "" && shown != "" && shown[0] == UpperChar(t[0]) && shown[1..] == t[1..]
    ensures shown == [UpperChar(t[0])] + t[1..]
  {
    assert shown == [shown[0]] + shown[1..];
  }

  /** The sort key: the position in the preferred order, -1 for any other type. */
  function TypeKey(): string -> int
  {
    (t: string) => IndexOf(PreferredOrder, t)
  }

  function Kinds(news: seq<NewsItem>): (kinds: seq<string>)
    ensures |kinds| == |news| && forall k :: 0 <= k < |news| ==> kinds[k] == news[k].kind
  {
    seq(|news|, k requires 0 <= k < |news| => news[k].kind)
  }

  /** `Array.from(new Set(allNews.map(n => n.type).filter(Boolean)))` */
  function PresentTypes(news: seq<NewsItem>): seq<string>
  {
    Dedup(Filter(Kinds(news), (t: string) => t != ""))
  }

  /** `types.sort((a, b) => preferredOrder.indexOf(a) - preferredOrder.indexOf(b))` */
  function ButtonTypes(news: seq<NewsItem>): seq<string>
  {
    SortBy(PresentTypes(news), TypeKey())
  }

  lemma {:induction false} InsertByNoDuplicates<T>(x: T, s: seq<T>, key: T -> int)
    requires NoDuplicates(s) && x !in s
    ensures NoDuplicates(InsertBy(x, s, key))
  {
    if s != [] && key(x) > key(s[0]) {
      InsertByNoDuplicates(x, s[1..], key);
      InsertByElements(x, s[1..], key);
      var t := InsertBy(x, s[1..], key);
      assert s[0] !in t by {
        assert s[0] != x && s[0] !in s[1..];
      }
      assert InsertBy(x, s, key) == [s[0]] + t;
    }
  }

  lemma {:induction false} SortByNoDuplicates<T>(s: seq<T>, key: T -> int)
    requires NoDuplicates(s)
    ensures NoDuplicates(SortBy(s, key))
    ensures forall y :: y in SortBy(s, key) <==> y in s
  {
    if s != [] {
      SortByNoDuplicates(s[1..], key);
      InsertByElements(s[0], SortBy(s[1..], key), key);
      assert s[0] !in s[1..];
      InsertByNoDuplicates(s[0], SortBy(s[1..], key), key);
      assert s == [s[0]] + s[1..];
    }
  }

  /** The button types are exactly the distinct non-empty types of the collection, each once. */
  lemma ButtonTypesArePresentTypes(news: seq<NewsItem>)
    ensures NoDuplicates(ButtonTypes(news))
    ensures forall t :: t in ButtonTypes(news) <==> t != "" && t in Kinds(news)
  {
    var nonEmpty := (t: string) => t != "";
    var present := PresentTypes(news);
    SortByNoDuplicates(present, TypeKey());
    forall t ensures t in present <==> t != "" && t in Kinds(news) {
      var kinds := Kinds(news);
      var filtered := Filter(kinds, nonEmpty);
      if t in present {
        var k :| 0 <= k < |present| && present[k] == t;
        var j :| 0 <= j < |filtered| && filtered[j] == t;
        assert nonEmpty(filtered[j]);
      }
      if t != "" && t in kinds {
        var k :| 0 <= k < |kinds| && kinds[k] == t;
        assert nonEmpty(kinds[k]);
        var j :| 0 <= j < |filtered| && filtered[j] == t;
      }
    }
  }

  /**
   * The button types follow the preferred order; a type outside it has key -1
   * and so comes before every preferred type, and such types keep the order of
   * their first appearance in the collection.
   */
  lemma ButtonTypesOrder(news: seq<NewsItem>)
    ensures var r := ButtonTypes(news);
      (forall k, l :: 0 <= k < l < |r| ==> IndexOf(PreferredOrder, r[k]) <= IndexOf(PreferredOrder, r[l])) &&
      (forall k, l :: 0 <= k < l < |r| && r[l] !in PreferredOrder ==> r[k] !in PreferredOrder) &&
      Filter(r, KeyIs(TypeKey(), -1)) == Filter(PresentTypes(news), KeyIs(TypeKey(), -1))
  {
    SortBySortedPermutation(PresentTypes(news), TypeKey());
    SortByStable(PresentTypes(news), TypeKey(), -1);
  }

  /** The present types come in the order in which each first appears in the collection. */
  lemma PresentTypesFirstAppearance(news: seq<NewsItem>, k: nat, l: nat)
    requires k < l < |PresentTypes(news)|
    ensures var kinds := Filter(Kinds(news), (t: string) => t != "");
      IndexOf(kinds, PresentTypes(news)[k]) < IndexOf(kinds, PresentTypes(news)[l])
  {
    DedupFirstOccurrenceOrder(Filter(Kinds(news), (t: string) => t != ""), k, l);
  }

  datatype TypeButton = TypeButton(value: string, text: string)

  /** The `data-value` of each button, in order. */
  function Values(buttons: seq<TypeButton>): (values: seq<string>)
    ensures |values| == |buttons| && forall k :: 0 <= k < |buttons| ==> values[k] == buttons[k].value
  {
    seq(|buttons|, k requires 0 <= k < |buttons| => buttons[k].value)
  }

  /**
   * The buttons `createFilterButtons` writes: "All Types" first, then the
   * button for each of `ButtonTypes`, in that order; what they offer is
   * stated by the four lemmas that follow.
   */
  function TypeButtons(news: seq<NewsItem>): (buttons: seq<TypeButton>)
    ensures |buttons| == |ButtonTypes(news)| + 1
    ensures buttons[0] == TypeButton("all", "All Types")
    ensures forall k :: 0 <= k < |ButtonTypes(news)| ==>
      buttons[k + 1].value == ButtonTypes(news)[k]
  {
    var types := ButtonTypes(news);
    [TypeButton("all", "All Types")] +
      seq(|types|, k requires 0 <= k < |types| => TypeButton(types[k], TypeLabel(types[k])))
  }

  /**
   * After "All Types" the buttons offer exactly the non-empty types some record
   * has: every button's value is one, and every one has a button.
   */
  lemma TypeButtonsOfferPresentTypes(news: seq<NewsItem>)
    ensures forall k :: 1 <= k < |TypeButtons(news)| ==>
      TypeButtons(news)[k].value != "" && TypeButtons(news)[k].value in Kinds(news)
    ensures forall t :: t != "" && t in Kinds(news) ==>
      exists k :: 1 <= k < |TypeButtons(news)| && TypeButtons(news)[k].value == t
  {
    var buttons := TypeButtons(news);
    var types := ButtonTypes(news);
    ButtonTypesArePresentTypes(news);
    forall k | 1 <= k < |buttons|
      ensures buttons[k].value != "" && buttons[k].value in Kinds(news)
    {
      var t := types[k - 1];
      assert t in types;
      assert buttons[k].value == t;
    }
    forall t | t != "" && t in Kinds(news)
      ensures exists k :: 1 <= k < |buttons| && buttons[k].value == t
    {
      var j :| 0 <= j < |types| && types[j] == t;
      assert buttons[j + 1].value == t;
    }
  }

  /** After "All Types" no two buttons carry the same value. */
  lemma TypeButtonsDistinct(news: seq<NewsItem>)
    ensures forall k, l :: 1 <= k < l < |TypeButtons(news)| ==> TypeButtons(news)[k].value != TypeButtons(news)[l].value
  {
    var buttons := TypeButtons(news);
    var types := ButtonTypes(news);
    ButtonTypesArePresentTypes(news);
    forall k, l | 1 <= k < l < |buttons|
      ensures buttons[k].value != buttons[l].value
    {
      assert buttons[k].value == types[k - 1] && buttons[l].value == types[l - 1];
    }
  }

  /** After "All Types" the buttons follow the preferred order, a type outside it first. */
  lemma TypeButtonsInPreferredOrder(news: seq<NewsItem>)
    ensures forall k, l :: 1 <= k < l < |TypeButtons(news)| ==>
      IndexOf(PreferredOrder, TypeButtons(news)[k].value) <= IndexOf(PreferredOrder, TypeButtons(news)[l].value)
  {
    var buttons := TypeButtons(news);
    var types := ButtonTypes(news);
    ButtonTypesOrder(news);
    forall k, l | 1 <= k < l < |buttons|
      ensures IndexOf(PreferredOrder, buttons[k].value) <= IndexOf(PreferredOrder, buttons[l].value)
    {
      assert buttons[k].value == types[k - 1] && buttons[l].value == types[l - 1];
    }
  }

  /** Each type button shows the label of its own value; "All Types" is the first button's text. */
  lemma TypeButtonsLabelled(news: seq<NewsItem>)
    ensures TypeButtons(news)[0].text == "All Types"
    ensures forall k :: 1 <= k < |TypeButtons(news)| ==> TypeButtons(news)[k].text == TypeLabel(TypeButtons(news)[k].value)
  {
  }

  /**
   * A record whose type is the literal `all` gets a type button of its own
   * whose value is `all` as well, and filtering by `all` lists every record,
   * not only the records of that type.
   */
  lemma TypeNamedAllListsEverything(news: seq<NewsItem>, i: nat)
    requires i < |news| && news[i].kind == "all"
    ensures exists b :: 1 <= b < |TypeButtons(news)| && TypeButtons(news)[b].value == "all"
    ensures ApplyFilters(news, "all", "") == news
  {
    var kinds := Kinds(news);
    assert kinds[i] == "all";
    assert "all" in kinds;
    TypeButtonsOfferPresentTypes(news);
  }

  /** `getActiveFilterValue('type')`: the active type button's value, or `all`. */
  function ActiveFilterValue(hasFilterContainer: bool, activeButton: Option<string>): (value: string)
    ensures !hasFilterContainer || activeButton == None ==> value == "all"
    ensures hasFilterContainer && activeButton.Some? ==> value == activeButton.value
  {
    if !hasFilterContainer then "all"
    else match activeButton
      case Some(v) => v
      case None => "all"
  }

  /** A button value other than `all`, on buttons made of "All Types" and one per type, is one of the types. */
  lemma ValueOfTypeButton(buttons: seq<TypeButton>, types: seq<string>, value: string)
    requires |buttons| == |types| + 1 && buttons[0].value == "all"
    requires forall k :: 0 <= k < |types| ==> buttons[k + 1].value == types[k]
    requires value in Values(buttons) && value != "all"
    ensures value in types
  {
    var values := Values(buttons);
    var k :| 0 <= k < |values| && values[k] == value;
    assert types[k - 1] == value;
  }

  lemma ValueOfButtonAt(buttons: seq<TypeButton>, k: nat)
    requires k < |buttons|
    ensures buttons[k].value in Values(buttons)
  {
    assert Values(buttons)[k] == buttons[k].value;
  }

  /** The value of any type button is `all` or a type some record has, and with no search it lists something. */
  lemma ButtonValueListsItems(news: seq<NewsItem>, value: string)
    requires news != [] && value in Values(TypeButtons(news))
    ensures value == "all" || value in Kinds(news)
    ensures ApplyFilters(news, value, "") != []
  {
    if value != "all" {
      ValueOfTypeButton(TypeButtons(news), ButtonTypes(news), value);
      ButtonTypeHasItems(news, value);
    }
  }

  /**
   * When the active button is one of the buttons built from the news, the
   * value `getActiveFilterValue` reads is `all` or a type some record has,
   * and with no search the list it selects is never empty.
   */
  lemma ActiveFilterListsItems(news: seq<NewsItem>, hasFilterContainer: bool, activeButton: Option<string>)
    requires news != []
    requires activeButton.Some? ==> activeButton.value in Values(TypeButtons(news))
    ensures var value := ActiveFilterValue(hasFilterContainer, activeButton);
      (value == "all" || value in Kinds(news)) && ApplyFilters(news, value, "") != []
  {
    if hasFilterContainer && activeButton.Some? {
      ButtonValueListsItems(news, activeButton.value);
    }
  }

  // ---------------------------------------------------------------------------
  // Filter and search

  predicate OfType(item: NewsItem, activeType: string)
  {
    item.kind == activeType
  }

  /** `search` (already lower-cased) occurs in the lower-cased title, summary or content. */
  predicate MatchesSearch(item: NewsItem, search: string)
  {
    Contains(Lower(item.title), search) ||
    Contains(Lower(item.summary), search) ||
    Contains(Lower(item.content), search)
  }

  /** `applyFilters`: a copy of the collection, narrowed by type, then by search. */
  function ApplyFilters(news: seq<NewsItem>, activeType: string, search: string): seq<NewsItem>
  {
    var byType := if activeType != "all" then Filter(news, item => OfType(item, activeType)) else news;
    if search != "" then Filter(byType, item => MatchesSearch(item, search)) else byType
  }

  predicate Kept(item: NewsItem, activeType: string, search: string)
  {
    (activeType == "all" || item.kind == activeType) && (search == "" || MatchesSearch(item, search))
  }

  function KeptBy(activeType: string, search: string): NewsItem -> bool
  {
    item => Kept(item, activeType, search)
  }

  /** The two passes are one order-preserving filter by `Kept`. */
  lemma ApplyFiltersIsOneFilter(news: seq<NewsItem>, activeType: string, search: string)
    ensures ApplyFilters(news, activeType, search) == Filter(news, KeptBy(activeType, search))
  {
    var byType := (item: NewsItem) => OfType(item, activeType);
    var bySearch := (item: NewsItem) => MatchesSearch(item, search);
    if activeType != "all" && search != "" {
      FilterFilter(news, byType, bySearch, KeptBy(activeType, search));
    } else if activeType != "all" {
      FilterSame(news, byType, KeptBy(activeType, search));
    } else if search != "" {
      FilterSame(news, bySearch, KeptBy(activeType, search));
    } else {
      FilterKeepsAll(news, KeptBy(activeType, search));
    }
  }

  /** The listed items are an order-preserving subsequence holding exactly the items that pass both tests. */
  lemma ApplyFiltersSelects(news: seq<NewsItem>, activeType: string, search: string)
    ensures IsSubsequence(ApplyFilters(news, activeType, search), news)
    ensures forall x :: x in ApplyFilters(news, activeType, search) <==> x in news && Kept(x, activeType, search)
  {
    ApplyFiltersIsOneFilter(news, activeType, search);
    FilterIsSubsequence(news, KeptBy(activeType, search));
    var r := ApplyFilters(news, activeType, search);
    forall x ensures x in r <==> x in news && Kept(x, activeType, search) {
      if x in news && Kept(x, activeType, search) {
        var k :| 0 <= k < |news| && news[k] == x;
        assert KeptBy(activeType, search)(news[k]);
      }
      if x in r {
        var k :| 0 <= k < |r| && r[k] == x;
        assert KeptBy(activeType, search)(r[k]);
      }
    }
  }

  /** `all` with an empty search lists the whole (date-sorted) collection. */
  lemma ApplyFiltersAllShowsEverything(news: seq<NewsItem>)
    ensures ApplyFilters(news, "all", "") == news
  {
  }

  /** Filtering the listed items again by the same selection changes nothing. */
  lemma ApplyFiltersIdempotent(news: seq<NewsItem>, activeType: string, search: string)
    ensures ApplyFilters(ApplyFilters(news, activeType, search), activeType, search) ==
      ApplyFilters(news, activeType, search)
  {
    ApplyFiltersIsOneFilter(news, activeType, search);
    ApplyFiltersIsOneFilter(ApplyFilters(news, activeType, search), activeType, search);
    FilterIdempotent(news, KeptBy(activeType, search));
  }

  /** A type offered by a button has items: with no search, filtering by it never empties the list. */
  lemma ButtonTypeHasItems(news: seq<NewsItem>, t: string)
    requires t in ButtonTypes(news)
    ensures t != "" && t in Kinds(news)
    ensures ApplyFilters(news, t, "") != []
  {
    ButtonTypesArePresentTypes(news);
    var kinds := Kinds(news);
    var k :| 0 <= k < |kinds| && kinds[k] == t;
    ApplyFiltersSelects(news, t, "");
    assert news[k] in ApplyFilters(news, t, "");
  }

  /** On a page with news, every button, "All Types" included, lists something when there is no search. */
  lemma ButtonOffersItems(news: seq<NewsItem>, k: nat)
    requires news != [] && k < |TypeButtons(news)|
    ensures ApplyFilters(news, TypeButtons(news)[k].value, "") != []
    ensures DisplayNews(ApplyFilters(news, TypeButtons(news)[k].value, "")).Entries?
  {
    if k > 0 {
      ButtonTypeHasItems(news, ButtonTypes(news)[k - 1]);
    }
  }

  /**
   * The search compares lower-cased text: a query is found exactly when, both
   * lower-cased, it occurs in the title, the summary or the content, whatever
   * case it was typed in; in particular any text the title holds as typed is found.
   */
  lemma SearchIgnoresCase(item: NewsItem, typed: string)
    ensures typed != "" ==> (Kept(item, "all", Lower(typed)) <==>
      Contains(Lower(item.title), Lower(typed)) ||
      Contains(Lower(item.summary), Lower(typed)) ||
      Contains(Lower(item.content), Lower(typed)))
    ensures Contains(item.title, typed) ==> Kept(item, "all", Lower(typed))
  {
    if Contains(item.title, typed) {
      ContainsLower(item.title, typed);
    }
  }

  // ---------------------------------------------------------------------------
  // Rendering

  /** The content of one list entry. */
  datatype Entry = Entry(
    title: string,
    date: string,
    badge: Option<string>,
    summary: Option<string>,
    linkId: string)

  /** What the list element shows. */
  datatype NewsView = NoNewsYet | NoNewsFound | Entries(entries: seq<Entry>) | LoadError

  /** `createListItemHTML` */
  function ListEntry(item: NewsItem): Entry
  {
    var summary := if item.summary != "" then item.summary else item.content;
    Entry(
      item.title,
      item.date,
      if item.kind != "" then Some(item.kind) else None,
      if summary != "" then Some(summary) else None,
      EncodeUriComponent(if item.slug != "" then item.slug else item.id))
  }

  /**
   * The summary shown is `summary`, else `content`, and the paragraph is left out
   * when both are empty; the badge appears only for a non-empty type; the link
   * id carries `slug`, else `id`, in a form that decodes back to it.
   */
  lemma ListEntryFallbacks(item: NewsItem)
    ensures item.summary != "" ==> ListEntry(item).summary == Some(item.summary)
    ensures item.summary == "" && item.content != "" ==> ListEntry(item).summary == Some(item.content)
    ensures ListEntry(item).summary == None <==> item.summary == "" && item.content == ""
    ensures ListEntry(item).badge.Some? <==> item.kind != ""
    ensures var key := if item.slug != "" then item.slug else item.id;
      (forall k :: 0 <= k < |key| ==> key[k] as int < 0x80) ==> PercentDecode(ListEntry(item).linkId) == key
    ensures forall k :: 0 <= k < |ListEntry(item).linkId| ==>
      Unreserved(ListEntry(item).linkId[k]) || ListEntry(item).linkId[k] == '%'
  {
    var key := if item.slug != "" then item.slug else item.id;
    EncodeUriComponentSafe(key);
    if forall k :: 0 <= k < |key| ==> key[k] as int < 0x80 {
      PercentDecodeEncode(key);
    }
  }

  /** `displayNews` */
  function DisplayNews(items: seq<NewsItem>): NewsView
  {
    if |items| == 0 then NoNewsFound
    else Entries(seq(|items|, k requires 0 <= k < |items| => ListEntry(items[k])))
  }

  /** An empty filter result shows "No news found."; otherwise one entry per item, in order. */
  lemma DisplayNewsShape(items: seq<NewsItem>)
    ensures DisplayNews(items) == NoNewsFound <==> items == []
    ensures items != [] ==> (DisplayNews(items).Entries? &&
      |DisplayNews(items).entries| == |items| &&
      forall k :: 0 <= k < |items| ==> DisplayNews(items).entries[k] == ListEntry(items[k]))
  {
  }

  // ---------------------------------------------------------------------------
  // Page state

  /** What the data provider gave: a failure or the items. */
  datatype NewsFetch = FetchFailed | Fetched(items: seq<NewsItem>)

  /** The page's closure state: the collection, the search, the buttons and which is active, and the list. */
  class NewsPage {
    const hasFilterContainer: bool
    var allNews: seq<NewsItem>
    var currentSearch: string
    /** The value of the active type button, if there is one. */
    var activeButton: Option<string>
    /** Whether the filter and search handlers were registered. */
    var wired: bool
    var view: NewsView

    /**
     * Once wired, the page holds news; with a filter container some type button
     * is active, and the active button is one of the buttons on the page.
     */
    ghost predicate Valid()
      reads this
    {
      (wired ==> allNews != []) &&
      (wired && hasFilterContainer ==> activeButton.Some?) &&
      (activeButton.Some? ==> activeButton.value in Values(Buttons()))
    }

    /** The type buttons on the page: built from the news once it is loaded, when there is a filter container. */
    function Buttons(): seq<TypeButton>
      reads this`wired, this`allNews
    {
      if wired && hasFilterContainer then TypeButtons(allNews) else []
    }

    /** `initializeNews`: an empty collection shows "No news yet." and stops before sorting and wiring. */
    constructor Initialize(hasFilterContainer: bool, fetch: NewsFetch)
      ensures Valid()
      ensures this.hasFilterContainer == hasFilterContainer && currentSearch == ""
      ensures fetch.FetchFailed? ==> view == LoadError && !wired && Buttons() == [] && activeButton == None
      ensures fetch.Fetched? && fetch.items == [] ==>
        view == NoNewsYet && !wired && Buttons() == [] && activeButton == None && allNews == []
      ensures fetch.Fetched? && fetch.items != [] ==>
        wired && allNews == SortByDate(fetch.items) && view == DisplayNews(allNews) &&
        (hasFilterContainer ==> Buttons() == TypeButtons(allNews) && activeButton == Some("all")) &&
        (!hasFilterContainer ==> Buttons() == [] && activeButton == None)
    {
      this.hasFilterContainer := hasFilterContainer;
      currentSearch := "";
      activeButton := None;
      wired := false;
      match fetch
      case FetchFailed =>
        allNews := [];
        view := LoadError;
      case Fetched(items) =>
        allNews := items;
        if |items| == 0 {
          view := NoNewsYet;
        } else {
          var sorted := SortByDate(items);
          allNews := sorted;
          if hasFilterContainer {
            activeButton := Some("all");
          }
          view := DisplayNews(sorted);
          wired := true;
        }
    }

    /** `applyFilters`: the collection itself is left as it was. */
    method ApplyFiltersToView()
      requires Valid()
      modifies this`view
      ensures Valid()
      ensures view == DisplayNews(ApplyFilters(allNews, ActiveFilterValue(hasFilterContainer, activeButton), currentSearch))
      ensures wired && currentSearch == "" ==> view.Entries?
    {
      var activeType := ActiveFilterValue(hasFilterContainer, activeButton);
      if wired && currentSearch == "" {
        ActiveFilterListsItems(allNews, hasFilterContainer, activeButton);
      }
      view := DisplayNews(ApplyFilters(allNews, activeType, currentSearch));
    }

    /** `handleSearch`: the text is stored lower-cased and the list redrawn. */
    method HandleSearch(typed: string)
      requires Valid() && wired
      modifies this`currentSearch, this`view
      ensures Valid()
      ensures currentSearch == Lower(typed)
      ensures view == DisplayNews(ApplyFilters(allNews, ActiveFilterValue(hasFilterContainer, activeButton), Lower(typed)))
      ensures typed == "" ==> view.Entries?
    {
      var search := Lower(typed);
      currentSearch := search;
      ApplyFiltersToView();
    }

    /** `handleFilterClick` on one of the type buttons: it becomes the only active one. */
    method HandleFilterClick(k: nat)
      requires Valid() && k < |Buttons()|
      modifies this`activeButton, this`view
      ensures Valid()
      ensures activeButton == Some(Buttons()[k].value)
      ensures view == DisplayNews(ApplyFilters(allNews, Buttons()[k].value, currentSearch))
      ensures currentSearch == "" ==> view.Entries?
    {
      var buttons := Buttons();
      assert wired && hasFilterContainer && buttons == TypeButtons(allNews);
      var value := buttons[k].value;
      ValueOfButtonAt(buttons, k);
      if currentSearch == "" {
        ButtonValueListsItems(allNews, value);
      }
      activeButton := Some(value);
      view := DisplayNews(ApplyFilters(allNews, value, currentSearch));
    }
  }
}
