# DeckNotes card-collection model

DeckNotes is a single-page React app for note cards. A user creates, edits,
reorders, deletes and imports cards, and each card has a title, a summary, a
description and a colour tag. The whole list lives in one `localStorage`
slot (`deckNotes_cards`). All logic sits in one component, `DeckNotes`. The
repository ships it twice: `frontend/src/App.js` and
`netlify-clean/src/App.js`. Lines 1–334 are identical in the two files.
netlify-clean also has `generateSampleCards`. This Dafny project models that
component's state manager and proves what its handlers do to the list and to
the selection state.

Modules:

- `Cards` (`cards.dfy`): the `Card` and `Form` values and ECMAScript `trim`.
  It also holds the submit validation, `getColorClass` (as written and as
  intended), and the default and sample card lists.
- `Collection` (`collection.dfy`): the list transforms the handlers use.
  - `findIndex` by id.
  - The `map` of an update.
  - The by-id `filter`, shared by delete, import and sample generation.
  - The merge-by-id, with its lemmas: re-import adds nothing, merging is
    idempotent, and distinct ids stay distinct.
- `Reorder` (`reorder.dfy`): the two `splice` calls of `handleDrop`.
  - `Moved` is the splice-move as a spec function.
  - `MoveInPlace` does the same move on an array.
  - `DropResult` is the list the drop stores, including `splice`'s handling
    of a `-1` index.
- `Persistence` (`persistence.dfy`): the load-time decision between the
  stored list and the four default cards.
- `Deck` (`deck.dfy`): class `DeckNotes`.
  - One field per piece of React state.
  - A ghost field `saved` for the storage slot, tied to `cards` by `Valid()`.
    This is the write-through save.
  - One method per handler. Each method's `modifies` clause names exactly
    the fields its setters touch.

Three behaviours of the code differ from what a reader might expect:

- **Reorder with a missing id.** One might expect a drop whose dragged
  card is no longer in the list to do nothing. In the code, `findIndex`
  returns -1, and `splice(-1, 1)` then removes the last card and moves it to
  the target (`Reorder.DropStaleDraggedMovesLast`).
- **Id uniqueness.** Nothing checks that ids are unique. Two records in one
  imported file that share an id are both appended when that id is not
  already in the list, and both dropped when it is
  (`Collection.MergeKeepsIncomingDuplicates`). Distinctness is proved only
  where it holds (`Collection.MergeKeepsDistinct`,
  `Collection.ReplaceKeepsIds`).
- **Delete shrinks by one.** A confirmed delete removes every card with
  that id. The list shrinks by exactly one only when ids are distinct
  (`Collection.RemoveUniqueShrinksByOne`).

## Model

| member | source | states |
|---|---|---|
| `Cards.EmptyForm` | netlify-clean/src/App.js:18-23 | the initial and reset draft (three empty fields, colour blue) fails the submit validation, and its colour is a palette name |
| `Cards.CardFromForm` | netlify-clean/src/App.js:150-157 | the card built from a draft always has trimmed text |
| `Cards.FormOf` | netlify-clean/src/App.js:128-135 | copying a trimmed card into the form and building the card back from that form gives the same card |
| `Cards.Trim` | netlify-clean/src/App.js:145-154 | `trim` never lengthens its input, and a non-empty result neither starts nor ends with whitespace |
| `Cards.TrimIdempotent` | netlify-clean/src/App.js:152-154 | trimming an already-trimmed text changes nothing |
| `Cards.TrimStartSpec` | netlify-clean/src/App.js:145-154 | `trim`'s left half keeps a suffix, drops only whitespace, and leaves no leading whitespace |
| `Cards.TrimEndSpec` | netlify-clean/src/App.js:145-154 | `trim`'s right half keeps a prefix, drops only whitespace, and leaves no trailing whitespace |
| `Cards.TrimSpec` | netlify-clean/src/App.js:145-154 | `trim` gives the slice between the first and last non-whitespace characters; everything dropped is whitespace; the result is empty iff the input is all whitespace |
| `Cards.FormIsComplete` | netlify-clean/src/App.js:145 | a draft that passes the guard has non-empty title, summary and description |
| `Cards.FormIsCompleteIff` | netlify-clean/src/App.js:145-148 | a draft passes submit validation iff title, summary and description each hold a non-whitespace character |
| `Cards.ColorClass` | frontend/src/App.js:99-111 | each of the 8 colour names maps to `bg-<name>-600`; every other string maps to `bg-blue-600` |
| `Cards.ColorClassIsPickerClass` | frontend/src/App.js:99-111 | the lookup is total: every input gets one of the eight picker classes |
| `Cards.ColorMapLookup` | netlify-clean/src/App.js:100-110 | a property read on the colour object finds an own string exactly for the 8 names, and an inherited member exactly for the `Object.prototype` keys |
| `Cards.ColorClassAsWritten` | netlify-clean/src/App.js:110 | as written, each of the 12 keys inherited from `Object.prototype` yields the inherited member; every other key agrees with the intended lookup |
| `Cards.ColorClassAsWrittenNotTotal` | netlify-clean/src/App.js:110 | as written, colours `"toString"`, `"constructor"` and `"__proto__"` yield inherited members, while the intended lookup gives the blue class |
| `Cards.DefaultCards` | frontend/src/App.js:37-70 | exactly 4 cards with ids 1, 2, 3, 4 (pairwise distinct), each stamped with its own clock reading |
| `Cards.SampleCards` | netlify-clean/src/App.js:336-497 | 20 cards; the k-th has id equal to its own clock reading + k |
| `Cards.SampleIdsIncrease` | netlify-clean/src/App.js:336-497 | while the clock never runs backwards, the sample ids strictly increase and so are distinct |
| `Collection.IdSet` | netlify-clean/src/App.js:319 | the set of existing ids holds every card's id and nothing else |
| `Collection.IdSetSize` | netlify-clean/src/App.js:319 | the id set has at most one entry per card, and exactly one per card when ids are distinct |
| `Collection.IdSetAppend` | netlify-clean/src/App.js:319-321 | the id set of a concatenation is the union of the two id sets |
| `Collection.FindIndex` | netlify-clean/src/App.js:277-278 | the first index holding the id, or -1 when no card holds it |
| `Collection.FindIndexFindsIds` | netlify-clean/src/App.js:277-278 | the search succeeds iff the id is in the list's id set |
| `Collection.ReplaceById` | netlify-clean/src/App.js:160 | same length; each position holds the new card where the old id matched and the old card otherwise |
| `Collection.ReplaceKeepsIds` | netlify-clean/src/App.js:151-160 | an update that keeps the id keeps the id set, and keeps distinct ids distinct |
| `Collection.WithoutIds` | netlify-clean/src/App.js:185 | the by-id filter keeps each card with its multiplicity iff its id is not excluded; it is the identity when nothing matches and empty when everything does |
| `Collection.WithoutIdsAppend` | netlify-clean/src/App.js:320 | the filter distributes over concatenation, so kept cards stay in their relative order |
| `Collection.WithoutIdsIdSet` | netlify-clean/src/App.js:185 | the filtered list's id set is the old id set minus the excluded ids |
| `Collection.WithoutIdsDistinct` | netlify-clean/src/App.js:320-321 | filtering a list with distinct ids leaves distinct ids |
| `Collection.RemoveUniqueShrinksByOne` | netlify-clean/src/App.js:183-191 | with distinct ids, deleting a present id removes exactly one card |
| `Collection.MergeById` | netlify-clean/src/App.js:319-321 | the merge keeps the old list as its prefix and adds at most as many cards as came in |
| `Collection.MergeIdSet` | netlify-clean/src/App.js:319-321 | after a merge, the ids are exactly the old ids plus the incoming ids |
| `Collection.ReimportAddsNothing` | netlify-clean/src/App.js:317-324 | importing the current list again adds 0 cards |
| `Collection.MergeIdempotent` | netlify-clean/src/App.js:319-321 | merging the same document twice equals merging it once |
| `Collection.MergeKeepsDistinct` | netlify-clean/src/App.js:319-321 | distinct ids in the list and in the document give distinct ids after the merge |
| `Collection.MergeKeepsIncomingDuplicates` | netlify-clean/src/App.js:319-320 | two incoming records with one id are both appended, leaving a duplicate id, when that id is not in the list; both are dropped when it is. The existing-id set comes from the old list alone |
| `Collection.FreshSamplesAllAdded` | netlify-clean/src/App.js:500-504 | when no sample id is already present, all 20 sample cards are appended in order |
| `Reorder.Remove` | netlify-clean/src/App.js:281 | `splice(i, 1)` shortens the list by one |
| `Reorder.Insert` | netlify-clean/src/App.js:284 | `splice(i, 0, x)` lengthens the list by one and puts `x` at index `i` |
| `Reorder.Moved` | netlify-clean/src/App.js:281-284 | the two splices keep the length and put the dragged element at the target index |
| `Reorder.MovedAt` | netlify-clean/src/App.js:276-284 | element by element: the moved card lands at the target index, the cards between shift one step towards the source index, the rest stay |
| `Reorder.MovedIsPermutation` | netlify-clean/src/App.js:276-284 | the splice-move keeps the length and the multiset of cards |
| `Reorder.MovedKeepsOthersInOrder` | netlify-clean/src/App.js:276-284 | the moved card is at the target index, and removing it gives the original list without it, so the other cards keep their relative order |
| `Reorder.MoveInPlace` | netlify-clean/src/App.js:276-284 | the in-place array move leaves the array's contents equal to the splice-move of the old contents |
| `Reorder.SpliceStart` | netlify-clean/src/App.js:281-284 | `splice` keeps an in-range start, counts a negative start from the end, and never goes past the length |
| `Reorder.DropResult` | netlify-clean/src/App.js:270-286 | the stored list is a permutation of the old one; with no dragged card, or a drop onto the dragged card itself, it is unchanged |
| `Reorder.DropMovesCardToTarget` | netlify-clean/src/App.js:276-286 | when both ids are present and distinct, the dragged card ends at the target's original index and the others keep their relative order |
| `Reorder.DropStaleDraggedMovesLast` | netlify-clean/src/App.js:277-284 | when the dragged id is missing, the last card is the one moved to the target index |
| `Persistence.LoadedCards` | frontend/src/App.js:73-92 | the loaded list is never empty, and is either the stored array or the default cards |
| `Persistence.LoadUsesStoredListIff` | frontend/src/App.js:75-83 | a stored array is used iff it is non-empty |
| `Persistence.LoadFallsBackToDefaults` | frontend/src/App.js:73-92 | a missing slot, a parse failure, a non-array or an empty array gives exactly the 4 defaults with distinct ids 1..4 |
| `Persistence.SaveThenLoad` | frontend/src/App.js:73-97 | assuming the saved text parses back to the same list: a saved non-empty list loads back unchanged, and a saved empty list loads back as the defaults |
| `Deck.WithField` | netlify-clean/src/App.js:612-652 | the spread update sets the named field to the new value and leaves every other field as it was |
| `Deck.DeckNotes.Valid` | frontend/src/App.js:95-97 | the write-through invariant: the storage slot holds the current list. The handlers that change the list require and ensure it; the others cannot touch `cards` or `saved`, so it holds after them too |
| `Deck.DeckNotes.constructor` | frontend/src/App.js:5-97 | mounting sets every modal flag false and every selection empty, installs the loaded list, and saves it |
| `Deck.DeckNotes.SaveCards` | frontend/src/App.js:95-97 | after the save effect, the slot holds the whole current list |
| `Deck.DeckNotes.ResetForm` | netlify-clean/src/App.js:113-120 | the form becomes three empty fields with colour blue |
| `Deck.DeckNotes.ChangeFormField` | netlify-clean/src/App.js:612-652 | an input or colour button replaces exactly one form field |
| `Deck.DeckNotes.HandleCreateCard` | netlify-clean/src/App.js:122-126 | the form opens empty, and no card is being edited |
| `Deck.DeckNotes.HandleEditCard` | frontend/src/App.js:128-140 | the card's four fields are copied into the form; the detail modal closes; the pending delete clears; the form opens |
| `Deck.DeckNotes.HandleSubmitCard` | netlify-clean/src/App.js:142-168 | a rejected draft changes nothing; an accepted create appends one card of trimmed fields after unchanged earlier cards; an accepted update keeps length, positions, id and `createdAt` and changes only cards with the edited id |
| `Deck.DeckNotes.HandleCardClick` | netlify-clean/src/App.js:170-181 | during a drag a click changes nothing; otherwise it opens the detail modal on the card |
| `Deck.DeckNotes.HandleDeleteCard` | netlify-clean/src/App.js:183-191 | a call matching the pending id removes all cards with that id and clears it; any other call only arms that id; the list shrinks only on a matching call |
| `Deck.DeckNotes.HandleModalBackdropClick` | frontend/src/App.js:223-242 | a backdrop click on 'create' closes the form, resets it and clears the edited card; on 'card' it closes the detail modal and clears the pending delete; on 'about' it closes that modal; anything else changes nothing |
| `Deck.DeckNotes.HandleDragStart` | netlify-clean/src/App.js:245-250 | the card becomes the dragged card |
| `Deck.DeckNotes.HandleDragEnter` | netlify-clean/src/App.js:257-260 | the card becomes the hovered card |
| `Deck.DeckNotes.HandleDragLeave` | netlify-clean/src/App.js:262-265 | the hovered card clears |
| `Deck.DeckNotes.HandleDrop` | netlify-clean/src/App.js:267-289 | the stored list is the drop result of the old list; both drag fields are cleared on every path |
| `Deck.DeckNotes.HandleDragEnd` | netlify-clean/src/App.js:291-294 | both drag fields clear |
| `Deck.DeckNotes.ImportCards` | frontend/src/App.js:314-330 | a parse failure or a non-array changes nothing and reports it; an array gives the old list followed by the incoming records with new ids, and reports how many were added |
| `Deck.DeckNotes.GenerateSampleCards` | netlify-clean/src/App.js:499-504 | the 20 sample cards are merged by id, the about modal closes, and the number added (at most 20) is reported |
| `Deck.DeleteTwice` | netlify-clean/src/App.js:183-191 | two deletes of one id, the first not already armed, remove every card with that id; with distinct ids and the id present, exactly one card is removed |
| `Deck.EditWithoutChanges` | netlify-clean/src/App.js:128-168 | opening a trimmed, complete card that is the only card under its id, and submitting the untouched form, leaves the list unchanged. Another card sharing that id would be replaced too |
| `Deck.FirstRunCreate` | netlify-clean/src/App.js:142-168 | first run, then create "Fireball": 5 cards, the 4 defaults first and unchanged, the new card fifth with the fresh id and trimmed text |

## Left out

- Rendering: the JSX markup and CSS classes are not modelled. Only the `getColorClass` mapping is kept, because it is the one piece of logic there.
- The `localStorage` get/set calls are browser I/O. The slot is the ghost field `saved`. The stored text is reduced to its parse outcome.
- `JSON.parse` and `JSON.stringify` (including the pretty-printed export) are library calls. Their results are inputs. So the claim that serialisation is deterministic is not stated.
- `exportCards` is left out entirely. It only serialises the list and offers it as a download (`Blob`, object URL, anchor click), and none of that is state logic.
- `copyToClipboard` is left out: the clipboard API, the textarea fallback and `execCommand` are foreign calls.
- The `FileReader` read, the `if (!file)` guard and the reset of the file input are asynchronous browser I/O. Only the `onload` body is modelled. That body closes over `cards` as it was when the file was chosen, and that timing is not modelled.
- `cardModalPosition` is floating-point layout from `getBoundingClientRect`, so it is not modelled.
- `Date.now()` and `new Date().toISOString()` are inputs to the handlers. Nothing claims that a fresh id differs from existing ids, because the code never checks it.
- `e.preventDefault()`, the `dataTransfer` set-up, `alert` and `console.error` are event and browser calls. Where an alert shows an outcome, that outcome is a return value.
- The default and sample cards keep ids, titles, colours and count. Their summary and description texts are left empty.
- The inline Cancel and Close buttons repeat the 'create' and 'card' branches of `HandleModalBackdropClick`, so they have no methods of their own. The about button and the about close button each set one flag, and are not modelled either.
- HTML `required` attributes on the form inputs are browser-side validation, so they are not modelled. The handler's own trimmed check is.
- Card records are assumed well-formed. An imported or stored array element without an id is not modelled. The load test `parsedCards.length > 0` also accepts a stored top-level JSON string, or a JSON object with a positive numeric `length` property. Neither case is modelled: both are treated as a non-array, which gives the defaults.
- React's first render writes the initial empty list to the slot before the loaded list replaces it. The constructor collapses the two into their end state.
- Deck.DeckNotes.HandleDrop: requires a non-empty list. The drop target is one of the rendered cards, so the list cannot be empty. On an empty list the code would insert `undefined`, which is not a card.

## Findings

| source | as written | input that shows it | evidently intended | confidence | as-written member | corrected member |
|---|---|---|---|---|---|---|
| netlify-clean/src/App.js:110 (same in frontend/src/App.js:110) | the colour lookup reads a property of a plain object literal, so keys inherited from `Object.prototype` are found too; they are truthy, so the blue fallback is skipped | a card with colour `"toString"` (or `"constructor"`, `"__proto__"`), e.g. from an imported file | every colour outside the eight palette names maps to `bg-blue-600` | high; not executed | `Cards.ColorClassAsWritten` (shown by `Cards.ColorClassAsWrittenNotTotal`) | `Cards.ColorClass` (totality: `Cards.ColorClassIsPickerClass`) |
