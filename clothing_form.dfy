/** The garment form shared by the add dialog (src/components/AddClothingDialog.tsx)
    and the edit dialog (src/components/EditClothingDialog.tsx): the form data,
    the duplicate-free tag lists, the payload normalisation, and the two
    dialogs' submit handlers. */
module ClothingForm {
  import opened Wrappers
  import opened Seqs
  import Text
  import ClothingItems

  /** The form state: every scalar field is text, the tag fields are lists. */
  datatype FormData = FormData(
    name: string,
    category: string,
    subcategory: string,
    brand: string,
    colorPrimary: string,
    colorSecondary: string,
    pattern: string,
    material: string,
    size: string,
    purchasePrice: string,
    purchaseDate: string,
    notes: string,
    season: seq<string>,
    occasions: seq<string>,
    styleTags: seq<string>)

  const EmptyForm: FormData := FormData("", "", "", "", "", "", "", "", "", "", "", "", [], [], [])

  /** The three list fields `addTag` and `removeTag` work on. */
  datatype TagField = Season | Occasions | StyleTags

  function Tags(f: FormData, field: TagField): seq<string> {
    match field
    case Season => f.season
    case Occasions => f.occasions
    case StyleTags => f.styleTags
  }

  function WithTags(f: FormData, field: TagField, tags: seq<string>): (r: FormData)
    ensures Tags(r, field) == tags
    ensures forall g :: g != field ==> Tags(r, g) == Tags(f, g)
    ensures tags == Tags(f, field) ==> r == f
  {
    match field
    case Season => f.(season := tags)
    case Occasions => f.(occasions := tags)
    case StyleTags => f.(styleTags := tags)
  }

  /** addTag: a non-empty value not yet in the list is appended; anything else
      leaves the form as it is. */
  function AddTag(f: FormData, field: TagField, value: string): (r: FormData)
    ensures value != "" && value !in Tags(f, field) ==> Tags(r, field) == Tags(f, field) + [value]
    ensures value == "" || value in Tags(f, field) ==> r == f
    ensures WithTags(r, field, Tags(f, field)) == f
    ensures value in Tags(r, field) <==> value != "" || value in Tags(f, field)
    ensures NoDup(Tags(f, field)) ==> NoDup(Tags(r, field))
    ensures "" !in Tags(f, field) ==> "" !in Tags(r, field)
  {
    if value != "" && value !in Tags(f, field) then WithTags(f, field, Tags(f, field) + [value]) else f
  }

  /** removeTag: every occurrence of the value goes, the rest keep their order. */
  function RemoveTag(f: FormData, field: TagField, value: string): (r: FormData)
    ensures value !in Tags(r, field)
    ensures forall t :: t != value ==> (t in Tags(r, field) <==> t in Tags(f, field))
    ensures IsSubseq(Tags(r, field), Tags(f, field))
    ensures multiset(Tags(r, field)) == multiset(Tags(f, field))[value := 0]
    ensures WithTags(r, field, Tags(f, field)) == f
    ensures NoDup(Tags(f, field)) ==> NoDup(Tags(r, field))
  {
    WithTags(f, field, RemoveAll(Tags(f, field), value))
  }

  /** Adding a tag twice is adding it once. */
  lemma AddTagIdempotent(f: FormData, field: TagField, value: string)
    ensures AddTag(AddTag(f, field, value), field, value) == AddTag(f, field, value)
  {
  }

  /** Removing a freshly added tag restores the form exactly. */
  lemma RemoveUndoesAdd(f: FormData, field: TagField, value: string)
    requires value != "" && value !in Tags(f, field)
    ensures RemoveTag(AddTag(f, field, value), field, value) == f
  {
    RemoveAllAppended(Tags(f, field), value);
  }

  /** The style-tag box on Enter: the input is trimmed, blank input is
      ignored, and otherwise the trimmed text goes through `AddTag`. */
  function EnterStyleTag(f: FormData, input: string): (r: FormData)
    ensures (forall i :: 0 <= i < |input| ==> Text.IsJsWhitespace(input[i])) ==> r == f
    ensures Text.Trim(input) != "" && Text.Trim(input) !in f.styleTags ==>
      r == f.(styleTags := f.styleTags + [Text.Trim(input)])
    ensures Text.Trim(input) in f.styleTags ==> r == f
  {
    var value := Text.Trim(input);
    if value != "" then AddTag(f, StyleTags, value) else f
  }

  /** A tag is "clean" when it is non-empty and neither starts nor ends with whitespace. */
  predicate CleanTag(t: string) {
    t != "" && !Text.IsJsWhitespace(t[0]) && !Text.IsJsWhitespace(t[|t| - 1])
  }

  /** Entering style tags through the box keeps every style tag clean and the list duplicate-free. */
  lemma EnterStyleTagKeepsClean(f: FormData, input: string)
    requires forall t :: t in f.styleTags ==> CleanTag(t)
    requires NoDup(f.styleTags)
    ensures forall t :: t in EnterStyleTag(f, input).styleTags ==> CleanTag(t)
    ensures NoDup(EnterStyleTag(f, input).styleTags)
  {
    var v := Text.Trim(input);
    var r := EnterStyleTag(f, input);
    assert Tags(f, StyleTags) == f.styleTags && Tags(r, StyleTags) == r.styleTags;
    if v != "" && v !in f.styleTags {
      assert r.styleTags == f.styleTags + [v];
      assert CleanTag(v);
      forall t | t in r.styleTags
        ensures CleanTag(t)
      {
        if t != v {
          assert t in f.styleTags;
        }
      }
    } else {
      assert r == f;
    }
  }

  // ---------------------------------------------------------------- payloads

  /** The column values written for a garment on insert and on update; the
      price is the text handed to `parseFloat`. */
  datatype ItemPayload = ItemPayload(
    name: string,
    category: string,
    subcategory: Option<string>,
    brand: Option<string>,
    colorPrimary: Option<string>,
    colorSecondary: Option<string>,
    pattern: Option<string>,
    material: Option<string>,
    size: Option<string>,
    purchasePrice: Option<string>,
    purchaseDate: Option<string>,
    notes: Option<string>,
    season: seq<string>,
    occasions: seq<string>,
    styleTags: seq<string>,
    frontImageUrl: Option<string>,
    backImageUrl: Option<string>)

  /** The payload for a form and the two image URLs to write. Every optional
      text field that is empty is sent as null. */
  function Payload(f: FormData, front: Option<string>, back: Option<string>): (p: ItemPayload)
    ensures p.name == f.name && p.category == f.category
    ensures p.subcategory == EmptyToNull(f.subcategory) && p.brand == EmptyToNull(f.brand)
    ensures p.colorPrimary == EmptyToNull(f.colorPrimary) && p.colorSecondary == EmptyToNull(f.colorSecondary)
    ensures p.pattern == EmptyToNull(f.pattern) && p.material == EmptyToNull(f.material)
    ensures p.size == EmptyToNull(f.size) && p.purchasePrice == EmptyToNull(f.purchasePrice)
    ensures p.purchaseDate == EmptyToNull(f.purchaseDate) && p.notes == EmptyToNull(f.notes)
    ensures p.season == f.season && p.occasions == f.occasions && p.styleTags == f.styleTags
    ensures p.frontImageUrl == front && p.backImageUrl == back
  {
    ItemPayload(f.name, f.category, EmptyToNull(f.subcategory), EmptyToNull(f.brand),
                EmptyToNull(f.colorPrimary), EmptyToNull(f.colorSecondary), EmptyToNull(f.pattern),
                EmptyToNull(f.material), EmptyToNull(f.size), EmptyToNull(f.purchasePrice),
                EmptyToNull(f.purchaseDate), EmptyToNull(f.notes), f.season, f.occasions, f.styleTags,
                front, back)
  }

  /** The two required fields both hold text. */
  predicate HasRequired(f: FormData) {
    f.name != "" && f.category != ""
  }

  /** A reset form lacks its required fields, and filling in a name and a
      category is all it takes. */
  lemma HasRequiredAfterReset(name: string, category: string)
    ensures !HasRequired(EmptyForm)
    ensures HasRequired(EmptyForm.(name := name, category := category)) <==> name != "" && category != ""
  {
  }

  /** The image URL the edit dialog writes: the uploaded URL when it is
      non-empty, otherwise the item's existing one. */
  function ImageFallback(uploaded: string, existing: Option<string>): (r: Option<string>)
    ensures uploaded != "" ==> r == Some(uploaded)
    ensures uploaded == "" ==> r == existing
  {
    if uploaded != "" then Some(uploaded) else existing
  }

  /** The edit dialog's form loaded from an item: absent fields become "". */
  function FormFromItem(item: ClothingItems.ClothingItem): (f: FormData)
    ensures f.name == item.name && f.category == item.category
    ensures f.subcategory == item.subcategory.GetOr("") && f.brand == item.brand.GetOr("")
    ensures f.colorPrimary == item.colorPrimary.GetOr("") && f.colorSecondary == item.colorSecondary.GetOr("")
    ensures f.pattern == item.pattern.GetOr("") && f.material == item.material.GetOr("")
    ensures f.size == item.size.GetOr("") && f.purchasePrice == item.purchasePrice.GetOr("")
    ensures f.purchaseDate == item.purchaseDate.GetOr("") && f.notes == item.notes.GetOr("")
    ensures f.season == item.season && f.occasions == item.occasions && f.styleTags == item.styleTags
  {
    FormData(item.name, item.category, item.subcategory.GetOr(""), item.brand.GetOr(""),
             item.colorPrimary.GetOr(""), item.colorSecondary.GetOr(""), item.pattern.GetOr(""),
             item.material.GetOr(""), item.size.GetOr(""), item.purchasePrice.GetOr(""),
             item.purchaseDate.GetOr(""), item.notes.GetOr(""), item.season, item.occasions, item.styleTags)
  }

  /** An item value with an empty optional text read as null. */
  function Normal(o: Option<string>): Option<string> {
    if o == Some("") then None else o
  }

  /** Opening an item in the edit dialog and saving it untouched writes back
      the item's own values, with empty texts as null, and keeps both image
      URLs exactly as they were. */
  lemma EditUntouchedRoundTrip(item: ClothingItems.ClothingItem)
    ensures var f := FormFromItem(item);
      Payload(f, ImageFallback(item.frontImageUrl.GetOr(""), item.frontImageUrl),
                 ImageFallback(item.backImageUrl.GetOr(""), item.backImageUrl))
      == ItemPayload(item.name, item.category, Normal(item.subcategory), Normal(item.brand),
                     Normal(item.colorPrimary), Normal(item.colorSecondary), Normal(item.pattern),
                     Normal(item.material), Normal(item.size), Normal(item.purchasePrice),
                     Normal(item.purchaseDate), Normal(item.notes), item.season, item.occasions,
                     item.styleTags, item.frontImageUrl, item.backImageUrl)
  {
    EmptyToNullRoundTrip(item.subcategory);
    EmptyToNullRoundTrip(item.brand);
    EmptyToNullRoundTrip(item.colorPrimary);
    EmptyToNullRoundTrip(item.colorSecondary);
    EmptyToNullRoundTrip(item.pattern);
    EmptyToNullRoundTrip(item.material);
    EmptyToNullRoundTrip(item.size);
    EmptyToNullRoundTrip(item.purchasePrice);
    EmptyToNullRoundTrip(item.purchaseDate);
    EmptyToNullRoundTrip(item.notes);
  }

  // ---------------------------------------------------------------- dialogs

  datatype AddStatus = MissingRequired | ImageRequired | Added | AddFailed

  /** The insert the add dialog sends. */
  datatype ItemInsert = ItemInsert(userId: string, payload: ItemPayload)

  /** The add dialog's state. */
  class AddClothingDialog {
    var form: FormData
    var frontImageUrl: string
    var backImageUrl: string
    var open: bool
    var loading: bool

    constructor ()
      ensures form == EmptyForm && frontImageUrl == "" && backImageUrl == "" && !open && !loading
    {
      form := EmptyForm;
      frontImageUrl := "";
      backImageUrl := "";
      open := false;
      loading := false;
    }

    /** The uploader's callback: the first URL, and the second one or "". */
    method SetImages(front: string, back: Option<string>)
      modifies this`frontImageUrl, this`backImageUrl
      ensures frontImageUrl == front && backImageUrl == back.GetOr("")
    {
      frontImageUrl := front;
      backImageUrl := back.GetOr("");
    }

    /** handleSubmit. The name and category check comes first, then the front
        image check; `user` is the signed-in user's id and `response` the
        answer to the insert. */
    method Submit(user: Option<string>, response: Outcome) returns (status: AddStatus, insert: Option<ItemInsert>)
      modifies this
      ensures !HasRequired(old(form)) ==> status == MissingRequired
      ensures HasRequired(old(form)) && old(frontImageUrl) == "" ==> status == ImageRequired
      ensures status == MissingRequired || status == ImageRequired ==>
        insert.None? && form == old(form) && frontImageUrl == old(frontImageUrl)
        && backImageUrl == old(backImageUrl) && open == old(open) && loading == old(loading)
      ensures HasRequired(old(form)) && old(frontImageUrl) != "" ==>
        !loading
        && insert == (if user.Some?
                      then Some(ItemInsert(user.value, Payload(old(form), Some(old(frontImageUrl)),
                                                               EmptyToNull(old(backImageUrl)))))
                      else None)
      ensures HasRequired(old(form)) && old(frontImageUrl) != "" ==> status == Added || status == AddFailed
      ensures status == Added <==> HasRequired(old(form)) && old(frontImageUrl) != "" && user.Some? && response.Done?
      ensures status == Added ==> form == EmptyForm && frontImageUrl == "" && backImageUrl == "" && !open
      ensures status == AddFailed ==>
        form == old(form) && frontImageUrl == old(frontImageUrl) && backImageUrl == old(backImageUrl)
        && open == old(open)
    {
      if !HasRequired(form) {
        return MissingRequired, None;
      }
      if frontImageUrl == "" {
        return ImageRequired, None;
      }
      loading := true;
      if user.None? {
        status, insert := AddFailed, None;
      } else {
        insert := Some(ItemInsert(user.value, Payload(form, Some(frontImageUrl), EmptyToNull(backImageUrl))));
        if response.Done? {
          form := EmptyForm;
          frontImageUrl := "";
          backImageUrl := "";
          open := false;
          status := Added;
        } else {
          status := AddFailed;
        }
      }
      loading := false;
    }
  }

  datatype EditStatus = EditMissingRequired | Updated | UpdateFailed

  /** The update the edit dialog sends. */
  datatype ItemUpdate = ItemUpdate(id: string, payload: ItemPayload)

  /** The edit dialog's state; `item` is the garment being edited. */
  class EditClothingDialog {
    const item: ClothingItems.ClothingItem
    var form: FormData
    var frontImageUrl: string
    var backImageUrl: string
    var loading: bool

    constructor (item: ClothingItems.ClothingItem)
      ensures this.item == item
      ensures form == EmptyForm && frontImageUrl == "" && backImageUrl == "" && !loading
    {
      this.item := item;
      form := EmptyForm;
      frontImageUrl := "";
      backImageUrl := "";
      loading := false;
    }

    /** The effect that runs when the dialog opens: the form and both image
        URLs are loaded from the item. */
    method Initialize(isOpen: bool)
      modifies this`form, this`frontImageUrl, this`backImageUrl
      ensures isOpen ==> form == FormFromItem(item)
                         && frontImageUrl == item.frontImageUrl.GetOr("")
                         && backImageUrl == item.backImageUrl.GetOr("")
      ensures !isOpen ==> form == old(form) && frontImageUrl == old(frontImageUrl)
                          && backImageUrl == old(backImageUrl)
    {
      if isOpen {
        form := FormFromItem(item);
        frontImageUrl := item.frontImageUrl.GetOr("");
        backImageUrl := item.backImageUrl.GetOr("");
      }
    }

    /** The uploader's callback, as in the add dialog. */
    method SetImages(front: string, back: Option<string>)
      modifies this`frontImageUrl, this`backImageUrl
      ensures frontImageUrl == front && backImageUrl == back.GetOr("")
    {
      frontImageUrl := front;
      backImageUrl := back.GetOr("");
    }

    /** handleSubmit. `response` is the answer to the update; on success the
        dialog asks its owner to close it. */
    method Submit(response: Outcome) returns (status: EditStatus, update: Option<ItemUpdate>, closeRequested: bool)
      modifies this`loading
      ensures !HasRequired(form) ==>
        status == EditMissingRequired && update.None? && !closeRequested && loading == old(loading)
      ensures HasRequired(form) ==>
        !loading
        && update == Some(ItemUpdate(item.id, Payload(form, ImageFallback(frontImageUrl, item.frontImageUrl),
                                                            ImageFallback(backImageUrl, item.backImageUrl))))
        && (status == Updated <==> response.Done?)
        && status != EditMissingRequired
        && closeRequested == response.Done?
    {
      if !HasRequired(form) {
        return EditMissingRequired, None, false;
      }
      loading := true;
      update := Some(ItemUpdate(item.id, Payload(form, ImageFallback(frontImageUrl, item.frontImageUrl),
                                                       ImageFallback(backImageUrl, item.backImageUrl))));
      if response.Done? {
        status, closeRequested := Updated, true;
      } else {
        status, closeRequested := UpdateFailed, false;
      }
      loading := false;
    }
  }

  /** Opening the edit dialog and saving without touching anything keeps
      both stored image URLs. */
  lemma EditKeepsImagesWhenUntouched(item: ClothingItems.ClothingItem)
    ensures ImageFallback(item.frontImageUrl.GetOr(""), item.frontImageUrl) == item.frontImageUrl
    ensures ImageFallback(item.backImageUrl.GetOr(""), item.backImageUrl) == item.backImageUrl
  {
  }
}
