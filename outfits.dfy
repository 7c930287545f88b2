/** The outfit loader (src/hooks/useOutfits.tsx): outfits are read first,
    then each outfit's member garments are read separately; a failed member
    read empties that one outfit's member list and nothing else. */
module Outfits {
  import opened Wrappers
  import opened Seqs
  import Storage

  /** The garment fields joined into an outfit's member list. */
  datatype MemberGarment = MemberGarment(
    id: string,
    name: string,
    frontImageUrl: Option<string>,
    backImageUrl: Option<string>,
    category: string,
    colorPrimary: Option<string>,
    brand: Option<string>)

  /** One `outfit_items` row with its joined garment. */
  datatype OutfitItem = OutfitItem(clothingItems: MemberGarment)

  /** An `outfits` record with its member list. */
  datatype Outfit = Outfit(
    id: string,
    name: string,
    occasion: Option<string>,
    season: seq<string>,
    notes: Option<string>,
    rating: Option<int>,
    timesWorn: nat,
    createdAt: string,
    outfitItems: seq<OutfitItem>)

  /** The single-row writes the hook sends to the record store. */
  datatype OutfitWrite =
    | SetTimesWorn(id: string, timesWorn: nat)
    | DeleteRow(id: string)

  const LoadFailedMessage: string := "Failed to load outfits"

  /** `outfits.find(o => o.id === id)`. */
  function Find(outfits: seq<Outfit>, id: string): (r: Option<Outfit>)
    ensures r.None? <==> forall i :: 0 <= i < |outfits| ==> outfits[i].id != id
    ensures r.Some? ==> (exists i :: 0 <= i < |outfits| && outfits[i] == r.value
                           && r.value.id == id && forall j :: 0 <= j < i ==> outfits[j].id != id)
  {
    if outfits == [] then None
    else if outfits[0].id == id then Some(outfits[0])
    else
      var r := Find(outfits[1..], id);
      assert forall i :: 0 < i < |outfits| ==> outfits[i] == outfits[1..][i - 1];
      r
  }

  /** A member row after the load pass: both garment image URLs refreshed. */
  function WithSignedImages(m: OutfitItem, svc: Storage.Services): (r: OutfitItem)
    ensures r.clothingItems.(frontImageUrl := m.clothingItems.frontImageUrl,
                             backImageUrl := m.clothingItems.backImageUrl) == m.clothingItems
    ensures r.clothingItems.frontImageUrl == Storage.RefreshImageUrl(m.clothingItems.frontImageUrl, svc)
    ensures r.clothingItems.backImageUrl == Storage.RefreshImageUrl(m.clothingItems.backImageUrl, svc)
  {
    OutfitItem(m.clothingItems.(
      frontImageUrl := Storage.RefreshImageUrl(m.clothingItems.frontImageUrl, svc),
      backImageUrl := Storage.RefreshImageUrl(m.clothingItems.backImageUrl, svc)))
  }

  /** One outfit row completed with the answer of its member read. */
  function Assemble(o: Outfit, members: Remote<seq<OutfitItem>>, svc: Storage.Services): (r: Outfit)
    ensures r.(outfitItems := o.outfitItems) == o
    ensures members.Err? ==> r.outfitItems == []
    ensures members.Ok? ==>
      (|r.outfitItems| == |members.value|
       && forall i :: 0 <= i < |r.outfitItems| ==> r.outfitItems[i] == WithSignedImages(members.value[i], svc))
  {
    match members
    case Err(_) => o.(outfitItems := [])
    case Ok(rows) =>
      o.(outfitItems := seq(|rows|, i requires 0 <= i < |rows| => WithSignedImages(rows[i], svc)))
  }

  /** Every outfit row completed, in the order of the outfit query.
      `fetchMembers(id)` is the record store's answer for the members of `id`. */
  function AssembleAll(rows: seq<Outfit>, fetchMembers: string -> Remote<seq<OutfitItem>>,
                       svc: Storage.Services): (r: seq<Outfit>)
    ensures |r| == |rows|
    ensures forall i :: 0 <= i < |r| ==> r[i] == Assemble(rows[i], fetchMembers(rows[i].id), svc)
  {
    seq(|rows|, i requires 0 <= i < |rows| => Assemble(rows[i], fetchMembers(rows[i].id), svc))
  }

  /** The member reads that fail for `bad` and agree with `fetchMembers` elsewhere. */
  function FailingFor(fetchMembers: string -> Remote<seq<OutfitItem>>, bad: string): string -> Remote<seq<OutfitItem>>
  {
    id => if id == bad then Err(None) else fetchMembers(id)
  }

  /** A failed member read degrades only the outfits it belongs to: they keep
      every field but get an empty member list, and every other outfit is
      assembled exactly as before. */
  lemma MemberFailureIsLocal(rows: seq<Outfit>, fetchMembers: string -> Remote<seq<OutfitItem>>,
                             bad: string, svc: Storage.Services)
    ensures var before := AssembleAll(rows, fetchMembers, svc);
            var after := AssembleAll(rows, FailingFor(fetchMembers, bad), svc);
            |after| == |before|
            && (forall i :: 0 <= i < |rows| && rows[i].id != bad ==> after[i] == before[i])
            && (forall i :: 0 <= i < |rows| && rows[i].id == bad ==>
                  after[i] == rows[i].(outfitItems := []))
  {
  }

  /** The local patch after a successful times-worn write. */
  function MarkWorn(outfits: seq<Outfit>, id: string): (r: seq<Outfit>)
    ensures |r| == |outfits|
    ensures forall i :: 0 <= i < |r| ==>
      if outfits[i].id == id then r[i] == outfits[i].(timesWorn := outfits[i].timesWorn + 1)
      else r[i] == outfits[i]
  {
    seq(|outfits|, i requires 0 <= i < |outfits| =>
      if outfits[i].id == id then outfits[i].(timesWorn := outfits[i].timesWorn + 1) else outfits[i])
  }

  /** The local patch after a successful delete. */
  function WithoutId(outfits: seq<Outfit>, id: string): (r: seq<Outfit>)
    ensures forall o :: o in r <==> o in outfits && o.id != id
    ensures IsSubseq(r, outfits)
    ensures (forall i :: 0 <= i < |outfits| ==> outfits[i].id != id) ==> r == outfits
  {
    Filter(outfits, (o: Outfit) => o.id != id)
  }

  /** Deleting an id and then counting a wear for it leaves the list as the
      delete left it: the wear update finds nothing to change. */
  lemma MarkWornAfterDelete(outfits: seq<Outfit>, id: string)
    ensures MarkWorn(WithoutId(outfits, id), id) == WithoutId(outfits, id)
  {
    var w := WithoutId(outfits, id);
    assert forall i :: 0 <= i < |w| ==> w[i] in w && w[i].id != id;
  }

  /** The state of one `useOutfits` hook instance. */
  class OutfitsHook {
    var outfits: seq<Outfit>
    var loading: bool
    var error: Option<string>

    constructor ()
      ensures outfits == [] && loading && error == None
    {
      outfits := [];
      loading := true;
      error := None;
    }

    /** fetchOutfits. `query` is the answer to the owner-scoped, newest-first
        outfit query; `fetchMembers` answers each per-outfit member read.
        Returns the outfit ids whose members were read, in order. */
    method FetchOutfits(user: Option<string>, query: Remote<seq<Outfit>>,
                        fetchMembers: string -> Remote<seq<OutfitItem>>, svc: Storage.Services)
      returns (memberReads: seq<string>)
      modifies this
      ensures !loading
      ensures user.None? ==> outfits == [] && error == old(error) && memberReads == []
      ensures user.Some? && query.Ok? ==>
        error == None && outfits == AssembleAll(query.value, fetchMembers, svc)
        && |memberReads| == |query.value|
        && forall i :: 0 <= i < |memberReads| ==> memberReads[i] == query.value[i].id
      ensures user.Some? && query.Err? ==>
        outfits == old(outfits) && memberReads == []
        && error == Some(query.message.GetOr(LoadFailedMessage))
    {
      if user.None? {
        outfits := [];
        loading := false;
        return [];
      }
      loading := true;
      error := None;
      match query {
        case Err(message) =>
          memberReads := [];
          error := Some(message.GetOr(LoadFailedMessage));
        case Ok(rows) =>
          if rows == [] {
            outfits := [];
            memberReads := [];
          } else {
            memberReads := seq(|rows|, i requires 0 <= i < |rows| => rows[i].id);
            outfits := AssembleAll(rows, fetchMembers, svc);
          }
      }
      loading := false;
    }

    /** deleteOutfit: the delete is always sent; the list follows only on success. */
    method DeleteOutfit(id: string, response: Outcome) returns (write: OutfitWrite)
      modifies this`outfits
      ensures write == DeleteRow(id)
      ensures response.Done? ==> outfits == WithoutId(old(outfits), id)
      ensures response.Failed? ==> outfits == old(outfits)
    {
      write := DeleteRow(id);
      if response.Done? {
        outfits := WithoutId(outfits, id);
      }
    }

    /** incrementWearCount: no write for an unknown id. */
    method IncrementWearCount(id: string, response: Outcome) returns (write: Option<OutfitWrite>)
      modifies this`outfits
      ensures Find(old(outfits), id).None? ==> write.None? && outfits == old(outfits)
      ensures Find(old(outfits), id).Some? ==>
        write == Some(SetTimesWorn(id, Find(old(outfits), id).value.timesWorn + 1))
      ensures write.Some? && response.Done? ==> outfits == MarkWorn(old(outfits), id)
      ensures response.Failed? ==> outfits == old(outfits)
    {
      var found := Find(outfits, id);
      if found.None? {
        return None;
      }
      write := Some(SetTimesWorn(id, found.value.timesWorn + 1));
      if response.Done? {
        outfits := MarkWorn(outfits, id);
      }
    }
  }
}
