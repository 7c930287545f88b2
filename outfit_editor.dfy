/** The outfit editor dialog (src/components/AddOutfitDialog.tsx): the form,
    its set-like selection toggles, edit-mode initialisation, and the submit
    handler with its create path and its edit path, which diffs the original
    and the selected member ids into join-row inserts and deletes. */
module OutfitEditor {
  import opened Wrappers
  import opened Seqs
  import Text
  import ClothingItems

  /** The form state; every field is text except the two lists. */
  datatype OutfitForm = OutfitForm(
    name: string,
    occasion: string,
    season: seq<string>,
    notes: string,
    rating: string,
    selectedItems: seq<string>)

  const EmptyForm: OutfitForm := OutfitForm("", "", [], "", "", [])

  /** The outfit handed to the dialog in edit mode; `memberIds` stands for the
      optional `outfit_items` list, reduced to the joined garment ids. */
  datatype OutfitForEdit = OutfitForEdit(
    id: string,
    name: string,
    occasion: Option<string>,
    season: seq<string>,
    notes: Option<string>,
    rating: Option<int>,
    memberIds: Option<seq<string>>)

  datatype Mode = Create | Edit

  /** The column values written for an outfit on insert and on update. */
  datatype OutfitPayload = OutfitPayload(
    name: string,
    occasion: Option<string>,
    season: seq<string>,
    notes: Option<string>,
    rating: Option<int>)

  /** One `outfit_items` row. */
  datatype JoinRow = JoinRow(outfitId: string, itemId: string)

  /** The writes the submit handler sends, in order. */
  datatype EditorWrite =
    | InsertOutfit(userId: string, payload: OutfitPayload)
    | InsertJoinRows(rows: seq<JoinRow>)
    | UpdateOutfit(outfitId: string, payload: OutfitPayload)
    | DeleteJoinRows(outfitId: string, itemIds: seq<string>)

  datatype SubmitStatus = Rejected | Saved | SaveFailed

  /** The remote answers a submit may consume: the insert of the outfit row
      (answering with the new id), the join-row insert of create mode, and
      the update, join-row insert and join-row delete of edit mode. */
  datatype Responses = Responses(
    createOutfit: Remote<string>,
    createJoinRows: Outcome,
    updateOutfit: Outcome,
    addJoinRows: Outcome,
    removeJoinRows: Outcome)

  // ---------------------------------------------------------------- numbers

  predicate IsDigit(c: char) {
    '0' <= c <= '9'
  }

  function DigitChar(d: nat): (c: char)
    requires d < 10
    ensures IsDigit(c)
  {
    ('0' as int + d) as char
  }

  /** Decimal text of a natural number, most significant digit first. */
  function NatToString(n: nat): (s: string)
    ensures s != [] && forall i :: 0 <= i < |s| ==> IsDigit(s[i])
  {
    if n < 10 then [DigitChar(n)] else NatToString(n / 10) + [DigitChar(n % 10)]
  }

  /** `String(n)` for an integer. */
  function IntToString(n: int): (s: string)
    ensures s != [] && (s[0] == '-' <==> n < 0)
    ensures forall i :: (if n < 0 then 1 else 0) <= i < |s| ==> IsDigit(s[i])
  {
    if n < 0 then "-" + NatToString(-n) else NatToString(n)
  }

  function DigitValue(c: char): nat
    requires IsDigit(c)
  {
    c as int - '0' as int
  }

  /** Value of a run of decimal digits. */
  function DigitsValue(s: string): nat
    requires forall i :: 0 <= i < |s| ==> IsDigit(s[i])
  {
    if s == [] then 0
    else DigitsValue(s[..|s| - 1]) * 10 + DigitValue(s[|s| - 1])
  }

  /** Length of the run of digits at the start of `s`. */
  function LeadingDigits(s: string): (k: nat)
    ensures k <= |s|
    ensures forall i :: 0 <= i < k ==> IsDigit(s[i])
    ensures k == |s| || !IsDigit(s[k])
    ensures (forall i :: 0 <= i < |s| ==> IsDigit(s[i])) ==> k == |s|
  {
    if s != [] && IsDigit(s[0]) then 1 + LeadingDigits(s[1..]) else 0
  }

  /** `parseInt(s)` in base 10: leading whitespace skipped, an optional sign,
      then the longest run of digits; `None` stands for `NaN` (no digits). */
  function ParseInt(s: string): (r: Option<int>)
    ensures (forall i :: 0 <= i < |s| ==> !IsDigit(s[i])) ==> r.None?
    ensures r.Some? ==> exists i :: 0 <= i < |s| && IsDigit(s[i])
  {
    var t := Text.TrimStart(s);
    assert forall i :: 0 <= i < |t| ==> t[i] == s[|s| - |t| + i];
    ParseSigned(t)
  }

  /** `parseInt` after the leading whitespace: sign, then digits. */
  function ParseSigned(t: string): (r: Option<int>)
    ensures (forall i :: 0 <= i < |t| ==> !IsDigit(t[i])) ==> r.None?
    ensures r.Some? ==> exists i :: 0 <= i < |t| && IsDigit(t[i])
    ensures r.Some? && r.value < 0 ==> t[0] == '-'
  {
    var body := if t != [] && (t[0] == '-' || t[0] == '+') then t[1..] else t;
    var k := LeadingDigits(body);
    if k == 0 then None
    else
      var v: int := DigitsValue(body[..k]);
      Some(if t != [] && t[0] == '-' then -v else v)
  }

  lemma {:induction false} DigitsValueOfNat(n: nat)
    ensures DigitsValue(NatToString(n)) == n
  {
    var s := NatToString(n);
    if n >= 10 {
      DigitsValueOfNat(n / 10);
      assert s[..|s| - 1] == NatToString(n / 10);
    }
  }

  /** A text made only of digits is a single digit run: `LeadingDigits` takes all of it. */
  lemma {:induction false} LeadingDigitsAll(s: string)
    requires forall i :: 0 <= i < |s| ==> IsDigit(s[i])
    ensures LeadingDigits(s) == |s|
  {
    if s != [] {
      LeadingDigitsAll(s[1..]);
    }
  }

  /** `parseInt(String(n)) == n` for every integer. */
  lemma ParseIntToString(n: int)
    ensures ParseInt(IntToString(n)) == Some(n)
  {
    var m: nat := if n < 0 then -n else n;
    var digits := NatToString(m);
    assert IntToString(n) == (if n < 0 then "-" else "") + digits;
    DigitsValueOfNat(m);
    ParseSignedDigits(n < 0, digits);
  }

  /** An optional minus sign followed by a run of digits parses to its value. */
  lemma ParseSignedDigits(negative: bool, digits: string)
    requires digits != [] && forall i :: 0 <= i < |digits| ==> IsDigit(digits[i])
    ensures var v: int := DigitsValue(digits);
            ParseInt((if negative then "-" else "") + digits) == Some(if negative then -v else v)
  {
    var s := (if negative then "-" else "") + digits;
    var c := if negative then '-' else digits[0];
    assert s[0] == c;
    assert !Text.IsJsWhitespace(c) by {
      assert c == '-' || '0' <= c <= '9';
    }
    SignedDigits(negative, digits);
  }

  /** The sign-and-digits step on a sign followed by a run of digits. */
  lemma SignedDigits(negative: bool, digits: string)
    requires digits != [] && forall i :: 0 <= i < |digits| ==> IsDigit(digits[i])
    ensures var v: int := DigitsValue(digits);
            ParseSigned((if negative then "-" else "") + digits) == Some(if negative then -v else v)
  {
    ParseDigits(digits);
    if negative {
      var s := "-" + digits;
      assert s[0] == '-' && s[1..] == digits;
      assert ParseSigned(s) == Some(-(DigitsValue(digits) as int));
    } else {
      assert "" + digits == digits;
      assert digits[0] != '-' && digits[0] != '+' by { assert IsDigit(digits[0]); }
      assert ParseSigned(digits) == Some(DigitsValue(digits));
    }
  }

  /** A run of digits alone parses to its value. */
  lemma ParseDigits(digits: string)
    requires forall i :: 0 <= i < |digits| ==> IsDigit(digits[i])
    ensures LeadingDigits(digits) == |digits|
    ensures digits[..LeadingDigits(digits)] == digits
  {
    LeadingDigitsAll(digits);
  }

  // ---------------------------------------------------------------- form

  /** The rating shown in the form: a falsy rating (absent or zero) is "". */
  function RatingText(rating: Option<int>): (t: string)
    ensures t == "" <==> rating.None? || rating.value == 0
  {
    if rating.Some? && rating.value != 0 then IntToString(rating.value) else ""
  }

  /** The rating written on submit: "" is null, anything else goes through `parseInt`. */
  function RatingValue(text: string): (r: Option<int>)
    ensures text == "" ==> r.None?
  {
    if text == "" then None else ParseInt(text)
  }

  /** Loading a rating into the form and saving it unchanged writes back the
      same rating, except that a zero rating becomes null. */
  lemma RatingRoundTrip(rating: Option<int>)
    ensures RatingValue(RatingText(rating)) == if rating == Some(0) then None else rating
  {
    if rating.Some? && rating.value != 0 {
      ParseIntToString(rating.value);
    }
  }

  /** The column values built from the form on submit. */
  function Payload(f: OutfitForm): (p: OutfitPayload)
    ensures p.name == f.name && p.season == f.season
    ensures p.occasion == EmptyToNull(f.occasion) && p.notes == EmptyToNull(f.notes)
    ensures p.rating == RatingValue(f.rating)
  {
    OutfitPayload(f.name, EmptyToNull(f.occasion), f.season, EmptyToNull(f.notes), RatingValue(f.rating))
  }

  /** Member ids of the outfit being edited, in order; `[]` when absent. */
  function OriginalIds(o: OutfitForEdit): seq<string> {
    o.memberIds.GetOr([])
  }

  /** The form loaded from an outfit in edit mode. */
  function FormFromOutfit(o: OutfitForEdit): (f: OutfitForm)
    ensures f.name == o.name && f.season == o.season
    ensures f.occasion == o.occasion.GetOr("") && f.notes == o.notes.GetOr("")
    ensures f.rating == RatingText(o.rating)
    ensures f.selectedItems == OriginalIds(o)
  {
    OutfitForm(o.name, o.occasion.GetOr(""), o.season, o.notes.GetOr(""), RatingText(o.rating), OriginalIds(o))
  }

  /** Opening an outfit for editing and saving it untouched writes back its
      own values, with "" normalised to null and a zero rating to null. */
  lemma EditRoundTrip(o: OutfitForEdit)
    ensures Payload(FormFromOutfit(o)) ==
      OutfitPayload(o.name,
                    if o.occasion == Some("") then None else o.occasion,
                    o.season,
                    if o.notes == Some("") then None else o.notes,
                    if o.rating == Some(0) then None else o.rating)
  {
    RatingRoundTrip(o.rating);
  }

  /** toggleItem: the selection behaves as a set; nothing else in the form changes. */
  function ToggleItem(f: OutfitForm, id: string): (r: OutfitForm)
    ensures r.(selectedItems := f.selectedItems) == f
    ensures id in r.selectedItems <==> id !in f.selectedItems
    ensures forall x :: x != id ==> (x in r.selectedItems <==> x in f.selectedItems)
    ensures NoDup(f.selectedItems) ==> NoDup(r.selectedItems)
  {
    f.(selectedItems := Toggle(f.selectedItems, id))
  }

  /** toggleSeason: the same toggle on the season list. */
  function ToggleSeason(f: OutfitForm, season: string): (r: OutfitForm)
    ensures r.(season := f.season) == f
    ensures season in r.season <==> season !in f.season
    ensures forall x :: x != season ==> (x in r.season <==> x in f.season)
    ensures NoDup(f.season) ==> NoDup(r.season)
  {
    f.(season := Toggle(f.season, season))
  }

  /** Toggling an item twice gives back the form's selected set. */
  lemma ToggleItemTwice(f: OutfitForm, id: string)
    ensures Elems(ToggleItem(ToggleItem(f, id), id).selectedItems) == Elems(f.selectedItems)
    ensures ToggleItem(ToggleItem(f, id), id).season == f.season
  {
    ToggleTwice(f.selectedItems, id);
  }

  /** Toggling a season twice gives back the form's season set. */
  lemma ToggleSeasonTwice(f: OutfitForm, season: string)
    ensures Elems(ToggleSeason(ToggleSeason(f, season), season).season) == Elems(f.season)
    ensures ToggleSeason(ToggleSeason(f, season), season).selectedItems == f.selectedItems
  {
    ToggleTwice(f.season, season);
  }

  // ---------------------------------------------------------------- catalog views

  /** getItemsByCategory over the user's catalog. */
  function ItemsByCategory(items: seq<ClothingItems.ClothingItem>, category: string)
    : (r: seq<ClothingItems.ClothingItem>)
    ensures forall x :: x in r <==> x in items && x.category == category
    ensures IsSubseq(r, items)
  {
    Filter(items, (x: ClothingItems.ClothingItem) => x.category == category)
  }

  /** getSelectedItems: the catalog items whose id is selected, in catalog order. */
  function SelectedItems(items: seq<ClothingItems.ClothingItem>, f: OutfitForm)
    : (r: seq<ClothingItems.ClothingItem>)
    ensures forall x :: x in r <==> x in items && x.id in f.selectedItems
    ensures IsSubseq(r, items)
  {
    Filter(items, (x: ClothingItems.ClothingItem) => x.id in f.selectedItems)
  }

  // ---------------------------------------------------------------- membership diff

  /** One join row per id, all carrying the same outfit id. */
  function JoinRows(outfitId: string, ids: seq<string>): (r: seq<JoinRow>)
    ensures |r| == |ids|
    ensures forall i :: 0 <= i < |r| ==> r[i].outfitId == outfitId && r[i].itemId == ids[i]
  {
    seq(|ids|, i requires 0 <= i < |ids| => JoinRow(outfitId, ids[i]))
  }

  /** The ids to insert: the selected ids not among the original members, in selection order. */
  function Added(selected: seq<string>, original: seq<string>): (r: seq<string>)
    ensures forall id :: id in r <==> id in selected && id !in original
    ensures IsSubseq(r, selected)
  {
    Filter(selected, id => id !in original)
  }

  /** The ids to delete: the original members no longer selected, in original order. */
  function Removed(selected: seq<string>, original: seq<string>): (r: seq<string>)
    ensures forall id :: id in r <==> id in original && id !in selected
    ensures IsSubseq(r, original)
  {
    Filter(original, id => id !in selected)
  }

  lemma AddedSnoc(selected: seq<string>, id: string, original: seq<string>)
    ensures Added(selected + [id], original)
            == Added(selected, original) + (if id !in original then [id] else [])
  {
    FilterSnoc(selected, id, id => id !in original);
  }

  lemma RemovedSnoc(selected: seq<string>, original: seq<string>, id: string)
    ensures Removed(selected, original + [id])
            == Removed(selected, original) + (if id !in selected then [id] else [])
  {
    FilterSnoc(original, id, id => id !in selected);
  }

  /** The first `forEach` + `push` pass of the edit path. */
  method CollectAdded(selected: seq<string>, original: seq<string>) returns (toAdd: seq<string>)
    ensures toAdd == Added(selected, original)
  {
    toAdd := [];
    var i := 0;
    while i < |selected|
      invariant 0 <= i <= |selected|
      invariant toAdd == Added(selected[..i], original)
    {
      AddedSnoc(selected[..i], selected[i], original);
      assert selected[..i + 1] == selected[..i] + [selected[i]];
      if selected[i] !in original {
        toAdd := toAdd + [selected[i]];
      }
      i := i + 1;
    }
    assert selected[..i] == selected;
  }

  /** The second `forEach` + `push` pass of the edit path. */
  method CollectRemoved(selected: seq<string>, original: seq<string>) returns (toRemove: seq<string>)
    ensures toRemove == Removed(selected, original)
  {
    toRemove := [];
    var j := 0;
    while j < |original|
      invariant 0 <= j <= |original|
      invariant toRemove == Removed(selected, original[..j])
    {
      RemovedSnoc(selected, original[..j], original[j]);
      assert original[..j + 1] == original[..j] + [original[j]];
      if original[j] !in selected {
        toRemove := toRemove + [original[j]];
      }
      j := j + 1;
    }
    assert original[..j] == original;
  }

  /** Both passes of the edit path. */
  method Diff(selected: seq<string>, original: seq<string>) returns (toAdd: seq<string>, toRemove: seq<string>)
    ensures toAdd == Added(selected, original)
    ensures toRemove == Removed(selected, original)
  {
    toAdd := CollectAdded(selected, original);
    toRemove := CollectRemoved(selected, original);
  }

  /** No id is both inserted and deleted. */
  lemma DiffDisjoint(selected: seq<string>, original: seq<string>)
    ensures forall id :: !(id in Added(selected, original) && id in Removed(selected, original))
  {
  }

  /** Applying the diff to the original member set gives the selected set. */
  lemma DiffReconstructs(selected: seq<string>, original: seq<string>)
    ensures (Elems(original) - Elems(Removed(selected, original))) + Elems(Added(selected, original))
            == Elems(selected)
  {
    var add := Added(selected, original);
    var rem := Removed(selected, original);
    assert forall id :: id in Elems(add) <==> id in selected && id !in original;
    assert forall id :: id in Elems(rem) <==> id in original && id !in selected;
  }

  /** When the selected set equals the original set, neither join-table write is needed. */
  lemma UnchangedSelectionNoDiff(selected: seq<string>, original: seq<string>)
    requires Elems(selected) == Elems(original)
    ensures Added(selected, original) == [] && Removed(selected, original) == []
  {
    assert forall i :: 0 <= i < |selected| ==> selected[i] in Elems(original);
    FilterNone(selected, id => id !in original);
    assert forall i :: 0 <= i < |original| ==> original[i] in Elems(selected);
    FilterNone(original, id => id !in selected);
  }

  // ---------------------------------------------------------------- submit

  /** The submit guard: a name and at least one selected item. */
  predicate CanSubmit(f: OutfitForm) {
    f.name != "" && |f.selectedItems| > 0
  }

  /** The writes of the create path: the outfit insert and, once the new id
      is known, the join rows for the selection. */
  function CreateWrites(userId: string, f: OutfitForm, res: Responses): (w: seq<EditorWrite>)
    ensures 1 <= |w| <= 2 && w[0] == InsertOutfit(userId, Payload(f))
    ensures |w| == 2 <==> res.createOutfit.Ok?
    ensures |w| == 2 ==> w[1] == InsertJoinRows(JoinRows(res.createOutfit.value, f.selectedItems))
  {
    [InsertOutfit(userId, Payload(f))]
    + (if res.createOutfit.Ok? then [InsertJoinRows(JoinRows(res.createOutfit.value, f.selectedItems))] else [])
  }

  predicate CreateSucceeds(res: Responses) {
    res.createOutfit.Ok? && res.createJoinRows.Done?
  }

  /** The join-table writes after a successful outfit update: the insert of
      the added ids when there are any, then, unless that insert failed, the
      delete of the removed ids when there are any. */
  function JoinWrites(outfitId: string, add: seq<string>, rem: seq<string>, res: Responses): (w: seq<EditorWrite>)
    ensures |w| <= 2
    ensures w == [] <==> add == [] && rem == []
    ensures DeleteJoinRows(outfitId, rem) in w <==> rem != [] && !(add != [] && res.addJoinRows.Failed?)
  {
    (if |add| > 0 then [InsertJoinRows(JoinRows(outfitId, add))] else [])
    + (if (|add| > 0 && res.addJoinRows.Failed?) || |rem| == 0 then [] else [DeleteJoinRows(outfitId, rem)])
  }

  /** The writes of the edit path: the outfit update, then the join-table
      writes for the membership diff if the update succeeded. */
  function EditWrites(o: OutfitForEdit, f: OutfitForm, res: Responses): (w: seq<EditorWrite>)
    ensures |w| >= 1 && w[0] == UpdateOutfit(o.id, Payload(f))
    ensures res.updateOutfit.Failed? ==> w == [UpdateOutfit(o.id, Payload(f))]
  {
    [UpdateOutfit(o.id, Payload(f))]
    + (if res.updateOutfit.Failed? then []
       else JoinWrites(o.id, Added(f.selectedItems, OriginalIds(o)), Removed(f.selectedItems, OriginalIds(o)), res))
  }

  /** The edit path saves when every write it issues succeeds. */
  predicate EditSucceeds(o: OutfitForEdit, f: OutfitForm, res: Responses) {
    res.updateOutfit.Done?
    && (|Added(f.selectedItems, OriginalIds(o))| > 0 ==> res.addJoinRows.Done?)
    && (|Removed(f.selectedItems, OriginalIds(o))| > 0 ==> res.removeJoinRows.Done?)
  }

  /** Each join write inserts exactly the added ids or deletes exactly the
      removed ids, is never empty, and the insert comes before the delete. */
  lemma JoinWritesShape(outfitId: string, add: seq<string>, rem: seq<string>, res: Responses)
    ensures var w := JoinWrites(outfitId, add, rem, res);
      |w| <= 2
      && (forall k :: 0 <= k < |w| ==>
            (w[k] == InsertJoinRows(JoinRows(outfitId, add)) && add != [])
            || (w[k] == DeleteJoinRows(outfitId, rem) && rem != []))
      && (|w| == 2 ==> w[0].InsertJoinRows? && w[1].DeleteJoinRows?)
      && (add == [] && rem == [] ==> w == [])
  {
  }

  /** The edit path's writes: first the update of the outfit row; every join
      write comes after a successful update, inserts exactly the added ids and
      deletes exactly the removed ids, each under the outfit's own id. */
  lemma EditWritesShape(o: OutfitForEdit, f: OutfitForm, res: Responses)
    ensures var w := EditWrites(o, f, res);
      1 <= |w| <= 3 && w[0] == UpdateOutfit(o.id, Payload(f))
      && (res.updateOutfit.Failed? ==> |w| == 1)
      && w[1..] == (if res.updateOutfit.Failed? then []
                    else JoinWrites(o.id, Added(f.selectedItems, OriginalIds(o)),
                                    Removed(f.selectedItems, OriginalIds(o)), res))
  {
    JoinWritesShape(o.id, Added(f.selectedItems, OriginalIds(o)), Removed(f.selectedItems, OriginalIds(o)), res);
  }

  /** In edit mode an unchanged selection issues only the outfit update, and
      the save then depends on that update alone. */
  lemma UnchangedSelectionWritesOnlyUpdate(o: OutfitForEdit, f: OutfitForm, res: Responses)
    requires Elems(f.selectedItems) == Elems(OriginalIds(o))
    ensures EditWrites(o, f, res) == [UpdateOutfit(o.id, Payload(f))]
    ensures EditSucceeds(o, f, res) <==> res.updateOutfit.Done?
  {
    UnchangedSelectionNoDiff(f.selectedItems, OriginalIds(o));
  }

  /** The edit path as the handler runs it: the update, the diff, then the
      conditional join-table writes, stopping at the first failure. */
  method EditPath(o: OutfitForEdit, f: OutfitForm, res: Responses) returns (ok: bool, writes: seq<EditorWrite>)
    ensures writes == EditWrites(o, f, res)
    ensures ok == EditSucceeds(o, f, res)
  {
    writes := [UpdateOutfit(o.id, Payload(f))];
    ok := res.updateOutfit.Done?;
    if !ok {
      return;
    }
    var toAdd, toRemove := Diff(f.selectedItems, OriginalIds(o));
    var join: seq<EditorWrite> := [];
    if |toAdd| > 0 {
      join := [InsertJoinRows(JoinRows(o.id, toAdd))];
      ok := res.addJoinRows.Done?;
    }
    if ok && |toRemove| > 0 {
      join := join + [DeleteJoinRows(o.id, toRemove)];
      ok := res.removeJoinRows.Done?;
    }
    assert join == JoinWrites(o.id, toAdd, toRemove, res);
    writes := writes + join;
  }

  // ---------------------------------------------------------------- the dialog

  /** The dialog's state. `mode` and `initialOutfit` are its properties. */
  class OutfitDialog {
    const mode: Mode
    const initialOutfit: Option<OutfitForEdit>
    var form: OutfitForm
    var open: bool
    var loading: bool

    constructor (mode: Mode, initialOutfit: Option<OutfitForEdit>, startOpen: bool)
      ensures this.mode == mode && this.initialOutfit == initialOutfit
      ensures form == EmptyForm && open == startOpen && !loading
    {
      this.mode := mode;
      this.initialOutfit := initialOutfit;
      form := EmptyForm;
      open := startOpen;
      loading := false;
    }

    /** The create-mode effect for items chosen in the wardrobe beforehand. */
    method ApplyPreselected(preSelected: seq<string>)
      modifies this`form
      ensures mode == Create && |preSelected| > 0 ==> form == old(form).(selectedItems := preSelected)
      ensures !(mode == Create && |preSelected| > 0) ==> form == old(form)
    {
      if mode == Create && |preSelected| > 0 {
        form := form.(selectedItems := preSelected);
      }
    }

    /** The edit-mode effect that loads the form from the outfit. */
    method ApplyInitialOutfit()
      modifies this`form
      ensures mode == Edit && initialOutfit.Some? ==> form == FormFromOutfit(initialOutfit.value)
      ensures !(mode == Edit && initialOutfit.Some?) ==> form == old(form)
    {
      if mode == Edit && initialOutfit.Some? {
        form := FormFromOutfit(initialOutfit.value);
      }
    }

    /** handleSubmit. `user` is the signed-in user's id; `res` holds the
        answers of the writes. Returns the writes issued, in order. The form
        is kept as it is, whatever the outcome. */
    method Submit(user: Option<string>, res: Responses) returns (status: SubmitStatus, writes: seq<EditorWrite>)
      modifies this`open, this`loading
      ensures !CanSubmit(form) ==> status == Rejected && writes == [] && loading == old(loading)
      ensures CanSubmit(form) ==> !loading
      ensures writes ==
        if !CanSubmit(form) || user.None? then []
        else if mode == Create then CreateWrites(user.value, form, res)
        else if initialOutfit.None? then []
        else EditWrites(initialOutfit.value, form, res)
      ensures status ==
        if !CanSubmit(form) then Rejected
        else if user.Some? && (if mode == Create then CreateSucceeds(res)
                               else initialOutfit.Some? && EditSucceeds(initialOutfit.value, form, res))
        then Saved
        else SaveFailed
      ensures open == if status == Saved then false else old(open)
    {
      if !CanSubmit(form) {
        return Rejected, [];
      }
      loading := true;
      writes := [];
      status := SaveFailed;
      if user.Some? {
        var ok := false;
        if mode == Create {
          writes := [InsertOutfit(user.value, Payload(form))];
          if res.createOutfit.Ok? {
            writes := writes + [InsertJoinRows(JoinRows(res.createOutfit.value, form.selectedItems))];
            ok := res.createJoinRows.Done?;
          }
        } else if initialOutfit.Some? {
          ok, writes := EditPath(initialOutfit.value, form, res);
        }
        if ok {
          status := Saved;
          open := false;
        }
      }
      loading := false;
    }
  }
}
