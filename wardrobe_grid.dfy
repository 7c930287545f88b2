/** The wardrobe list view (src/components/WardrobeGrid.tsx): the search and
    category filter, the local favourite toggle, and the favourites count. */
module WardrobeGrid {
  import opened Wrappers
  import opened Seqs
  import Text

  /** A card in the wardrobe view. */
  datatype GridItem = GridItem(
    id: string,
    name: string,
    category: string,
    brand: Option<string>,
    colors: seq<string>,
    imageUrl: string,
    wearCount: nat,
    favorite: bool,
    occasions: seq<string>,
    lastWorn: string)

  const AllCategories: string := "All"

  /** The search matches the name or the brand, ignoring ASCII case. */
  predicate MatchesSearch(item: GridItem, term: string) {
    Text.Contains(Text.ToLower(item.name), Text.ToLower(term))
    || (item.brand.Some? && Text.Contains(Text.ToLower(item.brand.value), Text.ToLower(term)))
  }

  predicate MatchesCategory(item: GridItem, category: string) {
    category == AllCategories || item.category == category
  }

  /** filteredItems. */
  function FilteredItems(items: seq<GridItem>, term: string, category: string): (r: seq<GridItem>)
    ensures forall x :: x in r <==> x in items && MatchesSearch(x, term) && MatchesCategory(x, category)
    ensures IsSubseq(r, items)
    ensures |r| <= |items|
  {
    Filter(items, (x: GridItem) => MatchesSearch(x, term) && MatchesCategory(x, category))
  }

  /** Every text contains the empty text. */
  lemma ContainsEmpty(s: string)
    ensures Text.Contains(s, "")
  {
    Text.ContainsIff(s, "", 0);
  }

  /** An empty search in the "All" category keeps every item, in order. */
  lemma EmptySearchKeepsAll(items: seq<GridItem>)
    ensures FilteredItems(items, "", AllCategories) == items
  {
    assert Text.ToLower("") == "";
    forall i | 0 <= i < |items|
      ensures MatchesSearch(items[i], "")
    {
      ContainsEmpty(Text.ToLower(items[i].name));
    }
  }

  /** The search is case-insensitive: lower-casing the term changes nothing. */
  lemma SearchIgnoresCase(items: seq<GridItem>, term: string, category: string)
    ensures FilteredItems(items, Text.ToLower(term), category) == FilteredItems(items, term, category)
  {
    Text.ToLowerIdempotent(term);
    FilterAgree(items, (x: GridItem) => MatchesSearch(x, Text.ToLower(term)) && MatchesCategory(x, category),
                       (x: GridItem) => MatchesSearch(x, term) && MatchesCategory(x, category));
  }

  /** handleToggleFavorite. */
  function ToggleFavorite(items: seq<GridItem>, id: string): (r: seq<GridItem>)
    ensures |r| == |items|
    ensures forall i :: 0 <= i < |r| ==>
      if items[i].id == id then r[i] == items[i].(favorite := !items[i].favorite) else r[i] == items[i]
  {
    seq(|items|, i requires 0 <= i < |items| =>
      if items[i].id == id then items[i].(favorite := !items[i].favorite) else items[i])
  }

  /** Toggling the same card twice restores the list. */
  lemma ToggleFavoriteTwice(items: seq<GridItem>, id: string)
    ensures ToggleFavorite(ToggleFavorite(items, id), id) == items
  {
    var r := ToggleFavorite(ToggleFavorite(items, id), id);
    assert forall i :: 0 <= i < |items| ==> r[i] == items[i];
  }

  /** The favourites count, over every item whatever the filter. */
  function FavoritesCount(items: seq<GridItem>): (n: nat)
    ensures n <= |items|
    ensures n == |Filter(items, (x: GridItem) => x.favorite)|
  {
    Count(items, (x: GridItem) => x.favorite)
  }

  /** Toggling the favourite of the one card with an id moves the count by one. */
  lemma ToggleMovesCountByOne(items: seq<GridItem>, id: string, k: nat)
    requires k < |items| && items[k].id == id
    requires forall i :: 0 <= i < |items| && i != k ==> items[i].id != id
    ensures FavoritesCount(ToggleFavorite(items, id))
            == if items[k].favorite then FavoritesCount(items) - 1 else FavoritesCount(items) + 1
  {
    CountUpdate(items, ToggleFavorite(items, id), k, (x: GridItem) => x.favorite);
  }
}
