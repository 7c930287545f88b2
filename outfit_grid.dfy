/** The outfit list view helpers (src/components/OutfitGrid.tsx): members by
    category, the per-outfit statistics, and the preview strip with its
    "+N" overflow tile. */
module OutfitGrid {
  import opened Wrappers
  import opened Seqs
  import opened Outfits

  /** The garments of an outfit, in member order. */
  function Members(o: Outfit): (r: seq<MemberGarment>)
    ensures |r| == |o.outfitItems|
    ensures forall i :: 0 <= i < |r| ==> r[i] == o.outfitItems[i].clothingItems
  {
    seq(|o.outfitItems|, i requires 0 <= i < |o.outfitItems| => o.outfitItems[i].clothingItems)
  }

  /** getItemsByCategory: the outfit's garments of one category, in member order. */
  function ItemsByCategory(o: Outfit, category: string): (r: seq<MemberGarment>)
    ensures forall g :: g in r <==> g in Members(o) && g.category == category
    ensures IsSubseq(r, Members(o))
  {
    Filter(Members(o), (g: MemberGarment) => g.category == category)
  }

  /** The member categories, one per member, in member order. */
  function MemberCategories(o: Outfit): (r: seq<string>)
    ensures |r| == |o.outfitItems|
    ensures forall i :: 0 <= i < |r| ==> r[i] == o.outfitItems[i].clothingItems.category
  {
    seq(|o.outfitItems|, i requires 0 <= i < |o.outfitItems| => o.outfitItems[i].clothingItems.category)
  }

  datatype OutfitStats = OutfitStats(
    totalItems: nat,
    categories: seq<string>,
    hasTops: bool,
    hasBottoms: bool,
    hasShoes: bool,
    hasAccessories: bool)

  /** Some member of the outfit has the category. */
  predicate HasCategory(o: Outfit, category: string) {
    exists i :: 0 <= i < |o.outfitItems| && o.outfitItems[i].clothingItems.category == category
  }

  /** getOutfitStats. */
  function Stats(o: Outfit): (s: OutfitStats)
    ensures s.totalItems == |o.outfitItems|
    ensures NoDup(s.categories)
    ensures forall c :: c in s.categories <==> HasCategory(o, c)
    ensures forall i :: 0 <= i < |s.categories| ==> s.categories[i] in MemberCategories(o)
    ensures forall i, j :: 0 <= i < j < |s.categories| ==>
      FirstIndex(MemberCategories(o), s.categories[i]) < FirstIndex(MemberCategories(o), s.categories[j])
    ensures s.hasTops <==> HasCategory(o, "tops")
    ensures s.hasBottoms <==> HasCategory(o, "bottoms")
    ensures s.hasShoes <==> HasCategory(o, "shoes")
    ensures s.hasAccessories <==> HasCategory(o, "accessories")
  {
    var cats := MemberCategories(o);
    var unique := Dedup(cats);
    DedupSpec(cats);
    assert forall c :: c in unique <==> c in Elems(cats);
    OutfitStats(|o.outfitItems|, unique, "tops" in cats, "bottoms" in cats, "shoes" in cats, "accessories" in cats)
  }

  /** Every member appears in the selection for its own category, and that
      category is among the listed ones. */
  lemma {:induction false} CategoriesCoverMembers(o: Outfit, i: nat)
    requires i < |o.outfitItems|
    ensures o.outfitItems[i].clothingItems in ItemsByCategory(o, o.outfitItems[i].clothingItems.category)
    ensures o.outfitItems[i].clothingItems.category in Stats(o).categories
  {
    assert Members(o)[i] == o.outfitItems[i].clothingItems;
    assert HasCategory(o, o.outfitItems[i].clothingItems.category);
  }

  const GridPreviewSize: nat := 3
  const ListPreviewSize: nat := 2

  /** A preview strip: the first `limit` members, and the "+N" tile when
      more members are left out. */
  datatype Preview = Preview(shown: seq<OutfitItem>, more: Option<nat>)

  /** `items.slice(0, limit)` plus `items.length > limit && +(items.length - limit)`. */
  function PreviewOf(items: seq<OutfitItem>, limit: nat): (p: Preview)
    ensures |p.shown| <= limit && |p.shown| <= |items| && p.shown == items[..|p.shown|]
    ensures |items| <= limit ==> p.shown == items
    ensures p.more.Some? <==> |items| > limit
    ensures p.more.Some? ==> p.more.value > 0
    ensures |p.shown| == if |items| <= limit then |items| else limit
    ensures p.more.Some? ==> p.more.value == |items| - limit
  {
    if |items| > limit then Preview(items[..limit], Some(|items| - limit))
    else Preview(items, None)
  }

  /** The tiles of a preview account for every member exactly once: the shown
      members plus the "+N" count is the member count. */
  lemma PreviewAccountsForAll(items: seq<OutfitItem>, limit: nat)
    ensures |PreviewOf(items, limit).shown| + PreviewOf(items, limit).more.GetOr(0) == |items|
  {
  }

  /** The grid view (3 tiles) never shows fewer members than the list view (2). */
  lemma GridShowsAtLeastList(items: seq<OutfitItem>)
    ensures |PreviewOf(items, ListPreviewSize).shown| <= |PreviewOf(items, GridPreviewSize).shown|
    ensures PreviewOf(items, ListPreviewSize).shown
            == PreviewOf(items, GridPreviewSize).shown[..|PreviewOf(items, ListPreviewSize).shown|]
  {
  }
}
