/** The clothing-item catalog loader (src/hooks/useClothingItems.tsx): the
    hook's `items`, `loading` and `error` state, the load that refreshes image
    URLs, and the three success-gated mutations. */
module ClothingItems {
  import opened Wrappers
  import opened Seqs
  import Storage

  /** A `clothing_items` record. Optional columns are `Option`s; the purchase
      price is kept as its decimal text. */
  datatype ClothingItem = ClothingItem(
    id: string,
    userId: string,
    name: string,
    category: string,
    subcategory: Option<string>,
    brand: Option<string>,
    colorPrimary: Option<string>,
    colorSecondary: Option<string>,
    pattern: Option<string>,
    material: Option<string>,
    season: seq<string>,
    occasions: seq<string>,
    size: Option<string>,
    purchasePrice: Option<string>,
    purchaseDate: Option<string>,
    wearCount: nat,
    lastWorn: Option<string>,
    favorite: bool,
    notes: Option<string>,
    frontImageUrl: Option<string>,
    backImageUrl: Option<string>,
    aiDescription: Option<string>,
    styleTags: seq<string>,
    createdAt: string,
    updatedAt: string)

  /** The single-row writes the hook sends to the record store. */
  datatype ItemWrite =
    | SetFavorite(id: string, favorite: bool)
    | SetWear(id: string, wearCount: nat, lastWorn: string)
    | DeleteRow(id: string)

  const LoadFailedMessage: string := "Failed to load clothing items"

  /** `items.find(i => i.id === id)`: the first item with that id. */
  function Find(items: seq<ClothingItem>, id: string): (r: Option<ClothingItem>)
    ensures r.None? <==> forall i :: 0 <= i < |items| ==> items[i].id != id
    ensures r.Some? ==> (exists i :: 0 <= i < |items| && items[i] == r.value
                           && r.value.id == id && forall j :: 0 <= j < i ==> items[j].id != id)
  {
    if items == [] then None
    else if items[0].id == id then Some(items[0])
    else
      var r := Find(items[1..], id);
      assert forall i :: 0 < i < |items| ==> items[i] == items[1..][i - 1];
      r
  }

  /** One record after the load pass: both image URLs refreshed, nothing else touched. */
  function WithSignedImages(item: ClothingItem, svc: Storage.Services): (r: ClothingItem)
    ensures r.(frontImageUrl := item.frontImageUrl, backImageUrl := item.backImageUrl) == item
    ensures r.frontImageUrl == Storage.RefreshImageUrl(item.frontImageUrl, svc)
    ensures r.backImageUrl == Storage.RefreshImageUrl(item.backImageUrl, svc)
  {
    item.(frontImageUrl := Storage.RefreshImageUrl(item.frontImageUrl, svc),
          backImageUrl := Storage.RefreshImageUrl(item.backImageUrl, svc))
  }

  /** The load pass over the whole query result, in query order. */
  function WithSignedImagesAll(items: seq<ClothingItem>, svc: Storage.Services): (r: seq<ClothingItem>)
    ensures |r| == |items|
    ensures forall i :: 0 <= i < |r| ==> r[i] == WithSignedImages(items[i], svc)
  {
    seq(|items|, i requires 0 <= i < |items| => WithSignedImages(items[i], svc))
  }

  /** The local patch after a successful favourite write. */
  function FlipFavorite(items: seq<ClothingItem>, id: string): (r: seq<ClothingItem>)
    ensures |r| == |items|
    ensures forall i :: 0 <= i < |r| ==>
      if items[i].id == id then r[i] == items[i].(favorite := !items[i].favorite) else r[i] == items[i]
  {
    seq(|items|, i requires 0 <= i < |items| =>
      if items[i].id == id then items[i].(favorite := !items[i].favorite) else items[i])
  }

  /** Two successful favourite toggles restore the list. */
  lemma FlipFavoriteTwice(items: seq<ClothingItem>, id: string)
    ensures FlipFavorite(FlipFavorite(items, id), id) == items
  {
    var r := FlipFavorite(FlipFavorite(items, id), id);
    assert forall i :: 0 <= i < |items| ==> r[i] == items[i];
  }

  /** One item worn once more on `today`. */
  function Worn(item: ClothingItem, today: string): (r: ClothingItem)
    ensures r.(wearCount := item.wearCount, lastWorn := item.lastWorn) == item
    ensures r.wearCount == item.wearCount + 1 && r.lastWorn == Some(today)
  {
    item.(wearCount := item.wearCount + 1, lastWorn := Some(today))
  }

  /** The local patch after a successful wear-count write. */
  function MarkWorn(items: seq<ClothingItem>, id: string, today: string): (r: seq<ClothingItem>)
    ensures |r| == |items|
    ensures forall i :: 0 <= i < |r| ==> r[i] == if items[i].id == id then Worn(items[i], today) else items[i]
  {
    seq(|items|, i requires 0 <= i < |items| => if items[i].id == id then Worn(items[i], today) else items[i])
  }

  /** `n` successful wear-count updates on the same day. */
  function MarkWornTimes(items: seq<ClothingItem>, id: string, today: string, n: nat): seq<ClothingItem>
  {
    if n == 0 then items else MarkWorn(MarkWornTimes(items, id, today, n - 1), id, today)
  }

  /** After `n` successful updates the matching items were worn `n` more
      times and last worn today; every other item is as it was. */
  lemma {:induction false} MarkWornTimesCounts(items: seq<ClothingItem>, id: string, today: string, n: nat)
    ensures |MarkWornTimes(items, id, today, n)| == |items|
    ensures forall i :: 0 <= i < |items| ==>
      var r := MarkWornTimes(items, id, today, n);
      if items[i].id == id && n > 0
      then r[i] == items[i].(wearCount := items[i].wearCount + n, lastWorn := Some(today))
      else r[i] == items[i]
  {
    if n > 0 {
      MarkWornTimesCounts(items, id, today, n - 1);
    }
  }

  /** The local patch after a successful delete: every item with that id goes. */
  function WithoutId(items: seq<ClothingItem>, id: string): (r: seq<ClothingItem>)
    ensures forall x :: x in r <==> x in items && x.id != id
    ensures IsSubseq(r, items)
    ensures (forall i :: 0 <= i < |items| ==> items[i].id != id) ==> r == items
  {
    Filter(items, (x: ClothingItem) => x.id != id)
  }

  /** The state of one `useClothingItems` hook instance. */
  class ClothingItemsHook {
    var items: seq<ClothingItem>
    var loading: bool
    var error: Option<string>

    constructor ()
      ensures items == [] && loading && error == None
    {
      items := [];
      loading := true;
      error := None;
    }

    /** fetchItems. `user` is the signed-in user's id; `query` is the record
        store's answer to the owner-scoped, newest-first query; `svc` the URL
        parser and the object store. Returns the user id queried, if any. */
    method FetchItems(user: Option<string>, query: Remote<seq<ClothingItem>>, svc: Storage.Services)
      returns (queried: Option<string>)
      modifies this
      ensures !loading
      ensures queried == user
      ensures user.None? ==> items == [] && error == old(error)
      ensures user.Some? && query.Ok? ==>
        error == None && |items| == |query.value|
        && (forall i :: 0 <= i < |items| ==>
              items[i].(frontImageUrl := query.value[i].frontImageUrl,
                        backImageUrl := query.value[i].backImageUrl) == query.value[i])
        && (forall i :: 0 <= i < |items| ==>
              items[i].frontImageUrl == Storage.RefreshImageUrl(query.value[i].frontImageUrl, svc)
              && items[i].backImageUrl == Storage.RefreshImageUrl(query.value[i].backImageUrl, svc))
      ensures user.Some? && query.Err? ==>
        items == old(items) && error == Some(query.message.GetOr(LoadFailedMessage))
    {
      if user.None? {
        items := [];
        loading := false;
        return None;
      }
      queried := user;
      loading := true;
      error := None;
      match query {
        case Ok(rows) =>
          items := WithSignedImagesAll(rows, svc);
        case Err(message) =>
          error := Some(message.GetOr(LoadFailedMessage));
      }
      loading := false;
    }

    /** toggleFavorite: no write for an unknown id; the list changes only after
        the write succeeds. Returns the write issued, if any. */
    method ToggleFavorite(id: string, response: Outcome) returns (write: Option<ItemWrite>)
      modifies this`items
      ensures Find(old(items), id).None? ==> write.None? && items == old(items)
      ensures Find(old(items), id).Some? ==>
        write == Some(SetFavorite(id, !Find(old(items), id).value.favorite))
      ensures write.Some? && response.Done? ==> items == FlipFavorite(old(items), id)
      ensures response.Failed? ==> items == old(items)
    {
      var found := Find(items, id);
      if found.None? {
        return None;
      }
      write := Some(SetFavorite(id, !found.value.favorite));
      if response.Done? {
        items := FlipFavorite(items, id);
      }
    }

    /** incrementWearCount: `today` is the calendar date of the call. */
    method IncrementWearCount(id: string, today: string, response: Outcome) returns (write: Option<ItemWrite>)
      modifies this`items
      ensures Find(old(items), id).None? ==> write.None? && items == old(items)
      ensures Find(old(items), id).Some? ==>
        write == Some(SetWear(id, Find(old(items), id).value.wearCount + 1, today))
      ensures write.Some? && response.Done? ==> items == MarkWorn(old(items), id, today)
      ensures response.Failed? ==> items == old(items)
    {
      var found := Find(items, id);
      if found.None? {
        return None;
      }
      write := Some(SetWear(id, found.value.wearCount + 1, today));
      if response.Done? {
        items := MarkWorn(items, id, today);
      }
    }

    /** deleteItem: the delete is always sent; the list follows only on success. */
    method DeleteItem(id: string, response: Outcome) returns (write: ItemWrite)
      modifies this`items
      ensures write == DeleteRow(id)
      ensures response.Done? ==> items == WithoutId(old(items), id)
      ensures response.Failed? ==> items == old(items)
    {
      write := DeleteRow(id);
      if response.Done? {
        items := WithoutId(items, id);
      }
    }
  }
}
