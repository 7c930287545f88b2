# stitch-sense wardrobe core in Dafny

stitch-sense is a browser app for managing a personal wardrobe. Users keep a catalog of garments with photos stored in a private
object-store bucket, `clothing-images`. They assemble garments into outfits, search and filter the catalog, and chat with a canned
stylist. This project models the logic behind those screens:

- `storage.dfy`: the access-URL resolver. It extracts a storage path from a public, signed or plain object URL (the regular
  expression is written out as a leftmost-match search). It also fetches signed URLs, one at a time or in bulk, and refreshes
  a stored image URL.
- `clothing_items.dfy`: the garment catalog hook, a class with `items`, `loading` and `error` fields. It covers loading with the
  URL refresh, the favourite toggle, the wear count and delete. The local list changes only after the remote write succeeds.
- `outfits.dfy`: the outfit hook. Each outfit's members are read with one member read per outfit. A failed member read degrades
  only that outfit. Delete and the wear count work as in the catalog hook.
- `outfit_editor.dfy`: the create/edit outfit dialog. It covers:
  - the form and its round trip through the database row, including the `parseInt` rating;
  - set-like toggles;
  - the two diff loops over member ids and the ordered sequence of writes the submit handler sends.
- `outfit_grid.dfy`: the outfit view's category grouping, the statistics (unique categories in first-seen order) and the
  preview strip with its "+N" tile.
- `clothing_form.dfy`: the add and edit garment dialogs. It covers the tag lists, the Enter handler for the style-tag box, the
  payload with empty texts sent as null, and the image fallback of the edit dialog.
- `wardrobe_grid.dfy`: the wardrobe view's search/category filter, favourite toggle and favourites count.
- `image_uploader.dfy`: the upload queue. It covers:
  - the drop filter and the cap;
  - removal by index;
  - the per-index status updates of an upload run, as a loop over the queue;
  - the completion callback and the button state.
- `chat.dfy`: the keyword responder and the message log.
- `profile_settings.dfy`: the profile dialog's controlled/uncontrolled visibility, the display-name sync and the three
  account actions.

`seqs.dfy`, `text.dfy` and `wrappers.dfy` hold the shared sequence, text and option helpers. These include JavaScript's
`trim`, ASCII `toLowerCase`, `includes`, `filter` and `Set` de-duplication, and the `|| null` idiom.

Remote calls are parameters throughout:

- A query or storage answer is a `Remote<T>` (`Ok(value)` or `Err(message)`).
- A write's answer is an `Outcome` (`Done` or `Failed(message)`).
- Methods return the write requests they issue, so their contracts state both what is sent and how the local state follows.

The signed-in user, the clock, generated ids, object URLs and URL parsing are parameters as well.

## Model

| member | source | states |
|---|---|---|
| Wrappers.EmptyToNull | src/components/AddClothingDialog.tsx:121-142 | `x \|\| null` on text: null exactly for "", the text itself otherwise |
| Wrappers.EmptyToNullRoundTrip | src/components/EditClothingDialog.tsx:76-98 | reading a stored value into a form field (`?? ""`) and writing it back gives the value, except that a stored "" becomes null |
| Text.ContainsIff | src/components/WardrobeGrid.tsx:85-90 | an occurrence of the word at any position makes `includes` hold |
| Text.ContainsWitness | src/components/WardrobeGrid.tsx:85-90 | conversely, when `includes` holds the word occurs at some position |
| Text.ToLower | src/components/ChatInterface.tsx:73 | lower-casing keeps the length; each upper-case ASCII letter becomes the same letter in lower case and every other character is kept; no upper-case ASCII letter is left |
| Text.ToLowerIdempotent | src/components/WardrobeGrid.tsx:85-90 | lower-casing twice is lower-casing once |
| Text.ContainsToLower | src/components/ChatInterface.tsx:73-85 | an occurrence survives lower-casing of both texts |
| Text.TrimStart | src/components/ChatInterface.tsx:45 | the result is a suffix of the input with no leading whitespace, and only whitespace was dropped |
| Text.TrimEnd | src/components/ChatInterface.tsx:45 | the result is a prefix with no trailing whitespace, and only whitespace was dropped |
| Text.Trim | src/components/ChatInterface.tsx:45 | the result is no longer than the input, is empty iff the input is all whitespace, and otherwise neither starts nor ends with whitespace; it is the slice of the input between a whitespace prefix and a whitespace suffix |
| Seqs.SubseqRefl | src/hooks/useClothingItems.tsx:185 | every list is a subsequence of itself (the no-op case of `filter`) |
| Seqs.Filter | src/hooks/useClothingItems.tsx:185 | `filter` keeps exactly the elements satisfying the predicate, in order, as a subsequence |
| Seqs.FilterMultiset | src/hooks/useClothingItems.tsx:185 | each kept value occurs in the result exactly as often as in the input, each dropped value not at all |
| Seqs.FilterAgree | src/components/WardrobeGrid.tsx:85-90 | two predicates that agree on every element filter alike |
| Seqs.Count | src/components/WardrobeGrid.tsx:99 | the count is the length of the filtered list |
| Seqs.CountUpdate | src/components/WardrobeGrid.tsx:71-75 | changing one element moves the count by the change in that element's predicate value |
| Seqs.RemoveAll | src/components/EditClothingDialog.tsx:113-118 | removing a value drops every occurrence and keeps the rest in order, each other value as often as before |
| Seqs.Toggle | src/components/AddOutfitDialog.tsx:151-167 | the toggle adds an absent value at the end, or removes every occurrence of a present one |
| Seqs.ToggleTwice | src/components/AddOutfitDialog.tsx:151-167 | toggling twice restores the set of elements |
| Seqs.RemoveAllAppended | src/components/EditClothingDialog.tsx:104-118 | removing a freshly appended absent value gives back the original list |
| Seqs.FilterSnoc | src/components/AddOutfitDialog.tsx:241-257 | filtering a list extended by one element extends the filtered list by that element when it is kept |
| Seqs.FilterNone | src/components/AddOutfitDialog.tsx:241-257 | filtering with a predicate no element meets gives the empty list |
| Seqs.FirstIndex | src/components/OutfitGrid.tsx:52 | the first position holding a value that occurs in the list |
| Seqs.FirstIndexOfPrefix | src/components/OutfitGrid.tsx:52 | a value's first index in a prefix agrees with its first index in the whole list |
| Seqs.DedupSpec | src/components/OutfitGrid.tsx:52 | `[...new Set(xs)]` has no duplicates and the same elements, ordered by first occurrence |
| Storage.RunLength | src/lib/storage.ts:60 | `(.+)` extends over the longest run of non-line-terminators |
| Storage.TailAt | src/lib/storage.ts:60 | `clothing-images\/(.+)` matches at a position iff the bucket directory is there followed by a non-terminator; the capture is the run after it |
| Storage.MatchAt | src/lib/storage.ts:60 | a match at a position starts with `/`, leaves room for the prefix and the bucket directory, and captures a tail |
| Storage.SearchFrom | src/lib/storage.ts:60 | a leftmost-match search result is some position's capture |
| Storage.ExtractStoragePath | src/lib/storage.ts:56-64 | an unparsable URL yields null; a result is non-empty, terminator-free and captured in the pathname |
| Storage.GetSignedUrl | src/lib/storage.ts:9-25 | null exactly when the store answers with an error or throws; otherwise the store's signed URL |
| Storage.GetSignedUrls | src/lib/storage.ts:33-49 | on an error or a throw, one null per requested path; otherwise the store's list as given |
| Storage.RefreshImageUrl | src/hooks/useClothingItems.tsx:62-90 | absent stays absent; a URL changes only to a non-empty signed URL for its extracted path, and it does change whenever such a URL is given |
| Storage.RunLengthToEnd | src/lib/storage.ts:60 | a terminator-free tail is captured to the end of the pathname |
| Storage.StartsAtAfter | src/lib/storage.ts:60 | a word occurs right after the prefix it follows |
| Storage.TailAtSuffix | src/lib/storage.ts:60 | the tail pattern captures a terminator-free path that runs to the end |
| Storage.StartsAtHead | src/lib/storage.ts:60 | an occurrence begins with the word's first character |
| Storage.MatchAtStart | src/lib/storage.ts:60 | the full pattern matches at 0 once the prefix, the optional infix and the tail are in place |
| Storage.ExtractRoundTrip | src/lib/storage.ts:56-64 | a public, signed or plain object URL built for a non-empty, terminator-free path gives that path back |
| Storage.StartsAtConcat | src/lib/storage.ts:60 | adjacent occurrences form an occurrence of the concatenation |
| Storage.MatchAtNeedsPrefix | src/lib/storage.ts:60 | wherever the pattern matches, `/storage/v1/object/` followed by an optional infix and the bucket directory occurs |
| Storage.SearchFromNone | src/lib/storage.ts:60-61 | no match at any later position means the search gives null |
| Storage.SearchFromLeftmost | src/lib/storage.ts:60-61 | when some position matches, the search returns the capture of the leftmost matching position |
| Storage.ExtractRejectsUnprefixed | src/lib/storage.ts:56-64 | a pathname holding none of the three bucket prefixes yields null |
| Storage.EmptyRemainderNoMatchAtStart | src/lib/storage.ts:60 | `(.+)` needs at least one character after the bucket directory |
| Storage.ExtractRejectsEmptyRemainder | src/lib/storage.ts:56-64 | a pathname ending right after `clothing-images/` yields null |
| Storage.NoSlashInStorage | src/lib/storage.ts:60 | inside the storage prefix no later position can start a match |
| ClothingItems.Find | src/hooks/useClothingItems.tsx:109-110 | none iff no item has the id; otherwise the first item with it |
| ClothingItems.WithSignedImages | src/hooks/useClothingItems.tsx:62-90 | both image URLs are refreshed and every other field is untouched |
| ClothingItems.WithSignedImagesAll | src/hooks/useClothingItems.tsx:62-92 | the load pass keeps the query order and length and refreshes each record |
| ClothingItems.FlipFavorite | src/hooks/useClothingItems.tsx:119-123 | the items with the id flip `favorite`; the others are unchanged |
| ClothingItems.FlipFavoriteTwice | src/hooks/useClothingItems.tsx:107-137 | two successful toggles restore the list |
| ClothingItems.Worn | src/hooks/useClothingItems.tsx:156-160 | one more wear and `last_worn` set to today; nothing else changes |
| ClothingItems.MarkWorn | src/hooks/useClothingItems.tsx:156-160 | exactly the items with the id are worn once more today |
| ClothingItems.MarkWornTimesCounts | src/hooks/useClothingItems.tsx:139-174 | after n successful updates the matching items count n more wears; the others are untouched |
| ClothingItems.WithoutId | src/hooks/useClothingItems.tsx:185 | the list without the id, as an order-preserving subsequence; unchanged when the id is absent |
| ClothingItems.ClothingItemsHook.constructor | src/hooks/useClothingItems.tsx:38-40 | empty list, loading, no error |
| ClothingItems.ClothingItemsHook.FetchItems | src/hooks/useClothingItems.tsx:42-105 | no user: the list is emptied; a successful query: the records in query order with both image URLs refreshed, and no error; a failed one: the list is kept and the error's message, or the fixed text, is stored; loading ends false |
| ClothingItems.ClothingItemsHook.ToggleFavorite | src/hooks/useClothingItems.tsx:107-137 | an unknown id sends nothing; otherwise the flipped flag is written, and the list flips only when the write succeeds |
| ClothingItems.ClothingItemsHook.IncrementWearCount | src/hooks/useClothingItems.tsx:139-174 | an unknown id sends nothing; otherwise the incremented count and today are written, and the list follows only on success |
| ClothingItems.ClothingItemsHook.DeleteItem | src/hooks/useClothingItems.tsx:176-199 | the delete is always sent; the items with the id go only on success |
| Outfits.Find | src/hooks/useOutfits.tsx:183-184 | none iff no outfit has the id; otherwise the first such outfit |
| Outfits.WithSignedImages | src/hooks/useOutfits.tsx:96-131 | a member's two image URLs are refreshed; nothing else changes |
| Outfits.Assemble | src/hooks/useOutfits.tsx:66-93 | the outfit row is kept; a failed member read leaves it with no members; a successful one attaches the refreshed members |
| Outfits.AssembleAll | src/hooks/useOutfits.tsx:66-141 | every outfit is assembled from its own member read, in query order |
| Outfits.MemberFailureIsLocal | src/hooks/useOutfits.tsx:85-93 | a failing member read changes only the outfits with that id; every other outfit is assembled as before |
| Outfits.MarkWorn | src/hooks/useOutfits.tsx:193-199 | exactly the outfits with the id count one more wear |
| Outfits.WithoutId | src/hooks/useOutfits.tsx:166 | the list without the id, order kept; unchanged when the id is absent |
| Outfits.MarkWornAfterDelete | src/hooks/useOutfits.tsx:157-213 | after a delete a wear count for the same id changes nothing |
| Outfits.OutfitsHook.constructor | src/hooks/useOutfits.tsx:33-35 | empty list, loading, no error |
| Outfits.OutfitsHook.FetchOutfits | src/hooks/useOutfits.tsx:37-155 | no user: empty list and no reads; a successful query: one member read per outfit, in order, and the assembled list; a failed one: the list is kept and the error's message, or the fixed text, is stored; loading ends false |
| Outfits.OutfitsHook.DeleteOutfit | src/hooks/useOutfits.tsx:157-179 | the delete is always sent; the outfit goes only on success |
| Outfits.OutfitsHook.IncrementWearCount | src/hooks/useOutfits.tsx:181-213 | an unknown id sends nothing; otherwise the incremented count is written and the list follows only on success |
| OutfitEditor.DigitChar | src/components/AddOutfitDialog.tsx:138 | a digit below ten prints as a decimal digit character |
| OutfitEditor.NatToString | src/components/AddOutfitDialog.tsx:138 | `String(n)` of a natural number is a non-empty run of digits |
| OutfitEditor.LeadingDigits | src/components/AddOutfitDialog.tsx:199 | the longest run of digits at the start |
| OutfitEditor.DigitsValueOfNat | src/components/AddOutfitDialog.tsx:138-199 | the decimal text of n reads back as n |
| OutfitEditor.LeadingDigitsAll | src/components/AddOutfitDialog.tsx:199 | an all-digit text is one run of digits |
| OutfitEditor.ParseIntToString | src/components/AddOutfitDialog.tsx:138-199 | `parseInt(String(n))` is n for every integer, negative ones included |
| OutfitEditor.ParseSignedDigits | src/components/AddOutfitDialog.tsx:199 | an optional minus sign followed by digits parses to the signed value |
| OutfitEditor.SignedDigits | src/components/AddOutfitDialog.tsx:199 | the sign-and-digits step on such a text gives the signed value |
| OutfitEditor.IntToString | src/components/AddOutfitDialog.tsx:138 | `String(n)` is non-empty, starts with `-` exactly for negative n, and is digits after the sign |
| OutfitEditor.ParseInt | src/components/AddOutfitDialog.tsx:199 | a text without any digit gives `NaN`; a number is only read from a text holding a digit |
| OutfitEditor.ParseSigned | src/components/AddOutfitDialog.tsx:199 | after the whitespace: no digit gives `NaN`, a number needs a digit, and a negative number needs a leading minus |
| OutfitEditor.ParseDigits | src/components/AddOutfitDialog.tsx:199 | a run of digits is taken whole |
| OutfitEditor.RatingText | src/components/AddOutfitDialog.tsx:138 | the form shows "" exactly for an absent or zero rating |
| OutfitEditor.RatingValue | src/components/AddOutfitDialog.tsx:199 | an empty rating field is written as null |
| OutfitEditor.RatingRoundTrip | src/components/AddOutfitDialog.tsx:138-199 | a rating loaded into the form and saved unchanged is written back, except that 0 becomes null |
| OutfitEditor.Payload | src/components/AddOutfitDialog.tsx:191-204 | the name and seasons are written as typed; occasion and notes are null when empty; the rating is parsed |
| OutfitEditor.FormFromOutfit | src/components/AddOutfitDialog.tsx:131-145 | the edit form holds the outfit's values, absent texts as "", the rating text and the member ids |
| OutfitEditor.EditRoundTrip | src/components/AddOutfitDialog.tsx:131-238 | opening an outfit and saving it untouched writes back its own values, with "" and a zero rating as null |
| OutfitEditor.ToggleItem | src/components/AddOutfitDialog.tsx:160-167 | the id's membership flips, no other id's membership changes, no duplicates appear, and the rest of the form is kept |
| OutfitEditor.ToggleSeason | src/components/AddOutfitDialog.tsx:151-158 | the same for the season list |
| OutfitEditor.ToggleItemTwice | src/components/AddOutfitDialog.tsx:160-167 | toggling an item twice restores the selected set |
| OutfitEditor.ToggleSeasonTwice | src/components/AddOutfitDialog.tsx:151-158 | toggling a season twice restores the season set |
| OutfitEditor.ItemsByCategory | src/components/AddOutfitDialog.tsx:302-304 | exactly the catalog items of the category, in catalog order |
| OutfitEditor.SelectedItems | src/components/AddOutfitDialog.tsx:306-310 | exactly the catalog items whose id is selected, in catalog order |
| OutfitEditor.JoinRows | src/components/AddOutfitDialog.tsx:207-216 | one join row per id, in order, all with the outfit's id |
| OutfitEditor.AddedSnoc | src/components/AddOutfitDialog.tsx:241-248 | one more selected id extends the insert list iff it was not an original member |
| OutfitEditor.RemovedSnoc | src/components/AddOutfitDialog.tsx:249-257 | one more original id extends the delete list iff it is no longer selected |
| OutfitEditor.CollectAdded | src/components/AddOutfitDialog.tsx:241-248 | the loop collects the selected ids that are not original members, in selection order |
| OutfitEditor.CollectRemoved | src/components/AddOutfitDialog.tsx:249-257 | the loop collects the original ids no longer selected, in original order |
| OutfitEditor.Diff | src/components/AddOutfitDialog.tsx:241-257 | both passes of the edit-mode diff |
| OutfitEditor.DiffDisjoint | src/components/AddOutfitDialog.tsx:241-257 | no id is both inserted and deleted |
| OutfitEditor.DiffReconstructs | src/components/AddOutfitDialog.tsx:241-277 | the original members, minus the deleted ids and plus the inserted ones, are the selected set |
| OutfitEditor.UnchangedSelectionNoDiff | src/components/AddOutfitDialog.tsx:241-257 | an unchanged selected set needs neither join write |
| OutfitEditor.CreateWrites | src/components/AddOutfitDialog.tsx:189-221 | the outfit insert first; the join rows follow iff the insert returned an id, and they carry that id |
| OutfitEditor.JoinWritesShape | src/components/AddOutfitDialog.tsx:259-277 | the join writes insert exactly the added ids and delete exactly the removed ones; the insert comes first; nothing is sent for an empty diff |
| OutfitEditor.Added | src/components/AddOutfitDialog.tsx:241-248 | the added ids are exactly the selected ids not in the original list, in selection order |
| OutfitEditor.Removed | src/components/AddOutfitDialog.tsx:249-257 | the removed ids are exactly the original ids no longer selected, in original order |
| OutfitEditor.JoinWrites | src/components/AddOutfitDialog.tsx:259-277 | at most two writes; none iff both lists are empty; the delete is sent iff ids were removed and no insert failed before it |
| OutfitEditor.EditWrites | src/components/AddOutfitDialog.tsx:222-280 | the outfit update is always the first write; a failed update is the only write |
| OutfitEditor.EditWritesShape | src/components/AddOutfitDialog.tsx:222-280 | the outfit update comes first; a failed update stops the path; otherwise the join writes of the diff follow |
| OutfitEditor.UnchangedSelectionWritesOnlyUpdate | src/components/AddOutfitDialog.tsx:222-280 | with an unchanged selection only the outfit update is sent, and the save succeeds iff it does |
| OutfitEditor.EditPath | src/components/AddOutfitDialog.tsx:222-280 | the edit path sends the specified writes and succeeds iff every write it sends succeeds |
| OutfitEditor.OutfitDialog.constructor | src/components/AddOutfitDialog.tsx:106-118 | an empty form, the given mode and outfit, not loading |
| OutfitEditor.OutfitDialog.ApplyPreselected | src/components/AddOutfitDialog.tsx:121-128 | in create mode a non-empty preselection replaces the selected items; the rest of the form is kept |
| OutfitEditor.OutfitDialog.ApplyInitialOutfit | src/components/AddOutfitDialog.tsx:131-145 | in edit mode with an outfit, the form is loaded from it |
| OutfitEditor.OutfitDialog.Submit | src/components/AddOutfitDialog.tsx:169-300 | without a name or with no items nothing is sent; without a user nothing is written; otherwise the create or edit writes are sent; the dialog closes iff the save succeeded; loading ends false |
| OutfitGrid.Members | src/components/OutfitGrid.tsx:42-46 | the member garments, in member order |
| OutfitGrid.ItemsByCategory | src/components/OutfitGrid.tsx:42-46 | exactly the outfit's garments of the category, in member order |
| OutfitGrid.MemberCategories | src/components/OutfitGrid.tsx:49-51 | one category per member, in member order |
| OutfitGrid.Stats | src/components/OutfitGrid.tsx:48-61 | the member count; the unique categories, ordered by first occurrence; each `has*` flag iff some member has that category |
| OutfitGrid.CategoriesCoverMembers | src/components/OutfitGrid.tsx:42-61 | every member is in its category's group, and that category is listed |
| OutfitGrid.PreviewOf | src/components/OutfitGrid.tsx:197-236 | the shown tiles are the first `limit` members (all of them when there are fewer); the "+N" tile appears iff members are left out, and N is the number left out |
| OutfitGrid.PreviewAccountsForAll | src/components/OutfitGrid.tsx:231-236 | the shown tiles plus N account for every member |
| OutfitGrid.GridShowsAtLeastList | src/components/OutfitGrid.tsx:197-376 | the list view's preview is a prefix of the grid view's |
| ClothingForm.WithTags | src/components/EditClothingDialog.tsx:104-118 | sets one tag list and keeps the other two |
| ClothingForm.AddTag | src/components/EditClothingDialog.tsx:104-111 | a non-empty new value is appended; an empty or present value changes nothing; only the chosen list changes; no duplicates or empty tags are introduced |
| ClothingForm.RemoveTag | src/components/EditClothingDialog.tsx:113-118 | the value is gone; every other tag is kept, in order and as often as before; only the chosen list changes |
| ClothingForm.AddTagIdempotent | src/components/AddClothingDialog.tsx:76-83 | adding a tag twice is adding it once |
| ClothingForm.RemoveUndoesAdd | src/components/AddClothingDialog.tsx:76-90 | removing a freshly added tag restores the form |
| ClothingForm.EnterStyleTag | src/components/EditClothingDialog.tsx:393-401 | blank input changes nothing; a trimmed text already in the list changes nothing; otherwise the trimmed text is appended to the style tags |
| ClothingForm.EnterStyleTagKeepsClean | src/components/AddClothingDialog.tsx:399-408 | style tags entered through the box stay non-empty, trimmed and duplicate-free |
| ClothingForm.Payload | src/components/AddClothingDialog.tsx:121-142 | name and category as typed; every optional text null when empty; the lists as they are; the two image URLs given |
| ClothingForm.ImageFallback | src/components/EditClothingDialog.tsx:153-154 | a non-empty uploaded URL wins; otherwise the stored URL is kept |
| ClothingForm.FormFromItem | src/components/EditClothingDialog.tsx:76-98 | the form holds the item's values, with absent texts as "" |
| ClothingForm.EditUntouchedRoundTrip | src/components/EditClothingDialog.tsx:76-155 | opening an item and saving it untouched writes back its own values, with "" as null, and keeps both image URLs |
| ClothingForm.AddClothingDialog.constructor | src/components/AddClothingDialog.tsx:50-70 | an empty form and no images, closed, not loading |
| ClothingForm.AddClothingDialog.SetImages | src/components/AddClothingDialog.tsx:208-211 | the front URL and the back URL, or "" |
| ClothingForm.AddClothingDialog.Submit | src/components/AddClothingDialog.tsx:92-183 | a missing name or category is refused first, then a missing front image, with nothing changed; otherwise the insert is sent for a user; success resets and closes; failure keeps the form; loading ends false; a complete form with a front image always ends added or failed |
| ClothingForm.HasRequiredAfterReset | src/components/AddClothingDialog.tsx:95-102 | a reset form lacks the required fields; a name and a category are exactly what it needs |
| ClothingForm.EditClothingDialog.constructor | src/components/EditClothingDialog.tsx:53-73 | the item, an empty form, not loading |
| ClothingForm.EditClothingDialog.Initialize | src/components/EditClothingDialog.tsx:76-98 | an open dialog loads the form and both image URLs from the item |
| ClothingForm.EditClothingDialog.SetImages | src/components/EditClothingDialog.tsx:202-205 | the front URL and the back URL, or "" |
| ClothingForm.EditClothingDialog.Submit | src/components/EditClothingDialog.tsx:120-177 | a missing name or category sends nothing; otherwise the update with the image fallback is sent, and success asks to close; loading ends false |
| ClothingForm.EditKeepsImagesWhenUntouched | src/components/EditClothingDialog.tsx:95-96 | without a new upload both stored image URLs are kept |
| WardrobeGrid.FilteredItems | src/components/WardrobeGrid.tsx:85-90 | exactly the items matching the search (name or brand, ignoring case) and the category ("All" matches every item), order kept |
| WardrobeGrid.ContainsEmpty | src/components/WardrobeGrid.tsx:85-90 | every text contains the empty search |
| WardrobeGrid.EmptySearchKeepsAll | src/components/WardrobeGrid.tsx:85-90 | the empty search in "All" keeps the whole list |
| WardrobeGrid.SearchIgnoresCase | src/components/WardrobeGrid.tsx:85-90 | lower-casing the search term changes nothing |
| WardrobeGrid.ToggleFavorite | src/components/WardrobeGrid.tsx:71-75 | the cards with the id flip their favourite; the others are unchanged |
| WardrobeGrid.ToggleFavoriteTwice | src/components/WardrobeGrid.tsx:71-75 | toggling twice restores the list |
| WardrobeGrid.FavoritesCount | src/components/WardrobeGrid.tsx:99 | the number of favourite items, at most the item count |
| WardrobeGrid.ToggleMovesCountByOne | src/components/WardrobeGrid.tsx:71-99 | toggling a unique card moves the count down by one if it was a favourite, up by one otherwise |
| ImageUploader.SliceTo | src/components/ImageUploader.tsx:53 | `slice(0, end)` is a prefix of length `end`, capped at the length; a negative end counts from the back, down to 0 |
| ImageUploader.QueuedAll | src/components/ImageUploader.tsx:53-58 | one fresh entry per file, in order: the preview set, no URL, not uploading, no error |
| ImageUploader.FinishUpload | src/components/ImageUploader.tsx:109-122 | uploading ends; success stores the public URL; failure stores the error message or "Upload failed" |
| ImageUploader.AfterRunAll | src/components/ImageUploader.tsx:85-125 | each image ends as its own run step left it, in order |
| ImageUploader.AfterRun | src/components/ImageUploader.tsx:85-125 | an image with a URL is left alone; otherwise it stops uploading and gets the URL on success, or keeps its URL and gets the store's message (or the default) on failure |
| ImageUploader.AcceptableBounds | src/components/ImageUploader.tsx:33-51 | a file over 10 MB is refused, one of exactly 10 MB with an `image/` type is accepted, and an accepted file's type starts with `image/` |
| ImageUploader.Settled | src/components/ImageUploader.tsx:85-125 | an image with a URL resolves to it; otherwise the promise resolves iff the upload succeeded, to the public URL |
| ImageUploader.SettledAll | src/components/ImageUploader.tsx:85-132 | the settled value of every image, in image order |
| ImageUploader.AllResolvedIff | src/components/ImageUploader.tsx:85-132 | `Promise.all` resolves iff every image without a URL was uploaded |
| ImageUploader.ValidUrls | src/components/ImageUploader.tsx:138 | `filter(Boolean)` keeps exactly the non-empty URLs |
| ImageUploader.ValidUrlsIsFilter | src/components/ImageUploader.tsx:138-141 | the URL list is the truthy results, in their order and with their repeats |
| ImageUploader.FirstValidUrl | src/components/ImageUploader.tsx:138-141 | the first URL comes from the first truthy result |
| ImageUploader.SecondValidUrl | src/components/ImageUploader.tsx:138-141 | the second URL comes from the next truthy result after the first |
| ImageUploader.CallbackUrlsInOrder | src/components/ImageUploader.tsx:132-152 | the callback's front URL is the first uploaded URL and its back URL, when present, the next one |
| ImageUploader.CallbackFor | src/components/ImageUploader.tsx:132-152 | the callback fires iff nothing rejected and a URL resulted; it gets the first URL and the second, if any |
| ImageUploader.HasUploading | src/components/ImageUploader.tsx:167 | some image is uploading |
| ImageUploader.HasErrors | src/components/ImageUploader.tsx:168 | some image has an error message |
| ImageUploader.AllHaveUrls | src/components/ImageUploader.tsx:169 | every image has a URL |
| ImageUploader.CanUpload | src/components/ImageUploader.tsx:169 | the queue is non-empty, nothing is uploading, and some image still lacks a URL |
| ImageUploader.Uploader.constructor | src/components/ImageUploader.tsx:24-30 | an empty queue with the given cap |
| ImageUploader.Uploader.OnDrop | src/components/ImageUploader.tsx:32-61 | the acceptable files, cut to the room left, are queued at the end; a queue within the cap stays within it |
| ImageUploader.Uploader.RemoveImage | src/components/ImageUploader.tsx:158-165 | the entry goes, the others keep their order, and its preview is revoked |
| ImageUploader.Uploader.UploadImages | src/components/ImageUploader.tsx:72-156 | an empty queue or no user changes nothing; otherwise every image is run and the callback is the one its settled values call for |
| ImageUploader.Uploader.UploadAll | src/components/ImageUploader.tsx:85-132 | the loop runs every image in place and collects what each settled to |
| ImageUploader.Uploader.UploadOne | src/components/ImageUploader.tsx:85-125 | only the image's own index changes, to its run result |
| ImageUploader.FreshQueueCanUpload | src/components/ImageUploader.tsx:53-58 | a non-empty freshly dropped queue can be uploaded |
| ImageUploader.SuccessfulRunDisablesUpload | src/components/ImageUploader.tsx:85-169 | after a fully successful run nothing is uploading and the button is off |
| Chat.Classify | src/components/ChatInterface.tsx:72-88 | the topics are chosen in priority order (business/meeting, then casual/weekend, then rainy/weather, otherwise general), each keyword found ignoring case |
| Chat.Respond | src/components/ChatInterface.tsx:72-88 | the business reply for a business or meeting message; otherwise the casual reply for casual or weekend; otherwise the weather reply for rainy or weather; otherwise the general reply |
| Chat.RespondIgnoresCase | src/components/ChatInterface.tsx:72-88 | the reply does not depend on the message's letter case |
| Chat.UpperCaseKeyword | src/components/ChatInterface.tsx:73-76 | "MEETING" in capitals still gives the business reply |
| Chat.Suggestions | src/components/ChatInterface.tsx:90-97 | the four fixed follow-ups |
| Chat.SuggestionsIgnoreMessage | src/components/ChatInterface.tsx:90-97 | the follow-ups do not depend on the message |
| Chat.ChatLog.constructor | src/components/ChatInterface.tsx:17-30 | the log starts with the welcome message and its suggestions |
| Chat.ChatLog.SendMessage | src/components/ChatInterface.tsx:44-58 | accepted iff the trimmed text is non-empty; then the trimmed user message is appended, the input cleared and the reply scheduled |
| Chat.ChatLog.DeliverReply | src/components/ChatInterface.tsx:59-69 | the oldest pending message gets its reply and suggestions appended, and loading ends |
| ProfileSettings.AcceptablePasswordIsLength | src/components/ProfileSettingsDialog.tsx:106 | the password rule is the length rule |
| ProfileSettings.FailureText | src/components/ProfileSettingsDialog.tsx:72 | the service's message when non-empty, otherwise "Try again." |
| ProfileSettings.CurrentName | src/components/ProfileSettingsDialog.tsx:54-59 | the stored display name, or "" without a user or a name |
| ProfileSettings.ProfileDialog.constructor | src/components/ProfileSettingsDialog.tsx:35-53 | closed, empty fields, nothing busy |
| ProfileSettings.ProfileDialog.Open | src/components/ProfileSettingsDialog.tsx:42-43 | the parent's value when it gives one, the own state otherwise |
| ProfileSettings.ProfileDialog.HandleOpenChange | src/components/ProfileSettingsDialog.tsx:44-47 | the own state follows only when uncontrolled, and a controlled dialog's visibility is unchanged; the value is forwarded iff the parent listens |
| ProfileSettings.ProfileDialog.SyncDisplayName | src/components/ProfileSettingsDialog.tsx:54-59 | an open dialog shows the current name; a closed one keeps the field |
| ProfileSettings.ProfileDialog.SaveDisplayName | src/components/ProfileSettingsDialog.tsx:61-79 | nothing without a user; otherwise the field is sent, a failure shows its text, and busy ends false |
| ProfileSettings.ProfileDialog.SendPasswordReset | src/components/ProfileSettingsDialog.tsx:81-103 | nothing without a user's email; otherwise a reset to that email with the fixed redirect, and busy ends false |
| ProfileSettings.ProfileDialog.ChangePassword | src/components/ProfileSettingsDialog.tsx:105-134 | a short or empty password sends nothing; otherwise it is sent and cleared only on success; busy ends false |

## Left out

- URL parsing (`new URL`) is a parameter that yields the pathname or a failure. Percent-decoding and the other parts of a URL are not modelled.
- Lower-casing covers ASCII letters only. Trimming uses JavaScript's whitespace set. Lengths count characters, not UTF-16 code units.
- A price is kept as the text handed to `parseFloat`; floating point is not modelled. `parseInt` is modelled for base-10 digits with a sign and leading whitespace, ignoring the text after the digits. Its `0x` prefix, which `parseInt` reads as base 16, is not modelled. Neither are values beyond double precision.
- The clock (today's date, message timestamps), generated ids, object URLs (`URL.createObjectURL`) and the uploaded file's object name (random text plus extension) are parameters. `revokeObjectURL` is modelled only as the preview it is called with.
- Toasts, console logging and rendering are not modelled. Only the data behind them is: error text, busy flags, statuses.
- Concurrency is not modelled:
  - React's batched and asynchronous state updates and stale closures;
  - interleaving of the upload promises;
  - the `setInterval`/`setTimeout` upload progress bar and the one-second chat delay.
  An upload run is modelled as its images settling in order, each update touching its own index.
- Storage.GetSignedUrls: on success the store's list is returned as given. The code passes that list through, although its documentation suggests one URL per path; the model follows the code.
- Storage.RefreshImageUrl: writes signed URLs back only into local state. The database keeps whatever the record held. `ExtractRoundTrip` shows that a signed URL written back still resolves to the same path.
- Chat.ChatLog: sending a message and delivering its reply are two methods, `SendMessage` and `DeliverReply`. The composition of the two is not stated as a single method.
- ProfileSettings.AcceptablePasswordIsLength: the partner of the password guard is only the observation that the emptiness test is implied by the length test.
- The static sample data and the unused sort options of src/components/WardrobeGrid.tsx are not modelled. Neither are the rendering-only components (HeroSection, ClothingCard, SupabaseConnectionTest, App, Index) or the generated database types.
- Authentication (`getUser`) is a parameter, the signed-in user's id or none. Sign-in, sign-out and session handling are not modelled.
