/** The public gallery section: the placeholder fallback when loading
    yields nothing, and the category filter with its counts. */
module GallerySection {

  import opened Common

  datatype Item = Item(id: string, title: string, category: string, createdAt: string)

  /** The placeholder list (lines 16-81), without descriptions and image
      URLs. */
  const Placeholders: seq<Item> := [
    Item("1", "Mythic Gnarlroot Kill", "kills", "2023-11-15"),
    Item("2", "Epic Wipe Compilation", "fun", "2023-11-10"),
    Item("3", "Gildentreffen 2023", "events", "2023-10-20"),
    Item("4", "Igira der Grausame Down", "kills", "2023-11-22"),
    Item("5", "Guild Photo Shoot", "fun", "2023-09-15"),
    Item("6", "Oktoberfest Guild Event", "events", "2023-10-01"),
    Item("7", "Volcoross Victory", "kills", "2023-11-29"),
    Item("8", "Funny Raid Moments", "fun", "2023-11-05")]

  /** How loading ended: the fetch or the JSON parse threw, the response
      was not OK, or it was OK with a `gallery` field (None when absent). */
  datatype Load = Threw | NotOk | Ok(gallery: Option<seq<Item>>)

  /** `loadGallery` (lines 94-109): the gallery when it has items, the
      placeholders otherwise. */
  function Loaded(l: Load): (items: seq<Item>)
    ensures l.Ok? && l.gallery.Some? && |l.gallery.value| > 0 ==> items == l.gallery.value
    ensures !(l.Ok? && l.gallery.Some? && |l.gallery.value| > 0) ==> items == Placeholders
  {
    match l
    case Ok(Some(g)) => if |g| > 0 then g else Placeholders
    case _ => Placeholders
  }

  /** The section never shows an empty gallery. */
  lemma NeverEmpty(l: Load)
    ensures |Loaded(l)| > 0
  {
  }

  predicate Shown(i: Item, key: string) {
    key == "all" || i.category == key
  }

  function ShownUnder(key: string): Item -> bool {
    (i: Item) => Shown(i, key)
  }

  /** `filteredItems` (lines 111-114). */
  function FilteredItems(items: seq<Item>, key: string): seq<Item>
  {
    Filter(items, ShownUnder(key))
  }

  function InCategory(category: string): Item -> bool {
    (i: Item) => i.category == category
  }

  datatype FilterButton = FilterButton(key: string, caption: string, count: nat)

  /** The `filters` buttons (lines 116-121). */
  function Filters(items: seq<Item>): (fs: seq<FilterButton>)
    ensures |fs| == 4
  {
    [ FilterButton("all", "Alle", |items|),
      FilterButton("kills", "First Kills", Count(items, InCategory("kills"))),
      FilterButton("fun", "Fun Pics", Count(items, InCategory("fun"))),
      FilterButton("events", "Events", Count(items, InCategory("events"))) ]
  }

  /** Every button's count is the number of items its key shows. */
  lemma CountsMatchItems(items: seq<Item>)
    ensures forall b :: b in Filters(items) ==> |FilteredItems(items, b.key)| == b.count
  {
    var fs := Filters(items);
    forall b | b in fs
      ensures |FilteredItems(items, b.key)| == b.count
    {
      var k :| 0 <= k < |fs| && fs[k] == b;
      ButtonCount(items, k);
    }
  }

  lemma ButtonCount(items: seq<Item>, k: nat)
    requires k < 4
    ensures |FilteredItems(items, Filters(items)[k].key)| == Filters(items)[k].count
  {
    var b := Filters(items)[k];
    if k == 0 {
      assert b == FilterButton("all", "Alle", |items|);
      AllCount(items);
    } else {
      var c := if k == 1 then "kills" else if k == 2 then "fun" else "events";
      assert b == FilterButton(b.key, b.caption, Count(items, InCategory(c))) && b.key == c;
      CategoryCount(items, c);
    }
  }

  lemma AllCount(items: seq<Item>)
    ensures |FilteredItems(items, "all")| == |items|
  {
    assert forall i :: 0 <= i < |items| ==> ShownUnder("all")(items[i]);
    FilterAll(items, ShownUnder("all"));
  }

  lemma CategoryCount(items: seq<Item>, category: string)
    requires category != "all"
    ensures FilteredItems(items, category) == Filter(items, InCategory(category))
  {
    FilterCongruent(items, ShownUnder(category), InCategory(category));
  }
}
