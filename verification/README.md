# Wishlist: a verified model of the service core

This project models the statable logic of a holiday wishlist web
application. The application has three parts. An owner creates a wishlist
under a slug, protects its editor with a PIN and adds items. A visitor claims
items under an anonymous browser identity. An AI lookup can fill in an item's
title, link, picture and price.

The model is functional. The store is two maps: slug to wishlist, and item id
to item. The editor's item list is a sequence. Strings are `seq<char>`, where a
`char` is a Unicode scalar value; JavaScript strings are sequences of UTF-16
code units, so the two differ only on characters outside the Basic
Multilingual Plane. Every handler is a pure transition from the state
before it to the state after it.

Some values come from outside the application and are parameters of the
operations:

- the slug, salt and anonymous id that nanoid generates;
- database ids and timestamps;
- the browser's stored anonymous id;
- the user's answer to a confirmation dialog;
- the answers of the server actions and HTTP routes.

Modules, one per source file, plus two shared ones:

- `Options`: optional values (`undefined` / `null` become `None`).
- `Text`: JavaScript `trim`, string truthiness, `includes`, and the
  URL-safe alphabet `[A-Za-z0-9_-]`, which is both nanoid's alphabet and the
  slug filter's.
- `Actions` (`src/lib/actions.ts`): wishlist creation, the PIN verifier and
  its check, and the item add, delete and update operations over the store.
  It includes the store invariant `Valid`: each wishlist is keyed by its slug,
  each item by its id, and every salt is non-empty.
- `Editor` (`src/components/WishlistEditor.tsx`): the editor's item list,
  add/delete/edit handlers, the PIN guard and the AI form merge.
- `ClaimButton` (`src/components/ClaimButton.tsx`): the claim state of one
  item as a visitor sees it.
- `CreateModal` (`src/components/CreateWishlistModal.tsx`): the slug input
  filter and the mapping of a failed creation to its message.
- `Enrich` (`src/app/api/ai/enrich/route.ts`): request validation and
  post-processing of the AI answer.
- `OwnerListing` (`src/app/api/wishlists/route.ts`): the owner's wishlists,
  newest first, with item counts.

Facts the proofs bring out:

- The PIN verifier is the salt followed by the reversed PIN. Once a PIN is
  set, exactly that PIN is accepted (`Actions.SetThenVerify`). This relies on
  the stored verifier being non-empty. `verifyWishlistPin` treats an empty
  verifier as "no PIN set". The verifier is never empty because every salt
  is a 16-character nanoid.
- Only the unknown-slug case makes `verifyWishlistPin` answer `false` without
  comparing anything. The caller cannot tell that case from a wrong PIN.
- `deleteItem` and `updateItem` ignore the slug. They act on the item id
  alone, whichever wishlist the item belongs to.
- The AI route's host allow-list does not restrict the image. The raw image
  is the fallback after the filtered one, so any non-empty image passes
  whatever its host (`Enrich.ImageFilterIsNoOp`). Links, in contrast, are
  restricted (`Enrich.ResultUrlAllowed`).
- A successful answer from the AI route always has a non-empty title, which
  is the model's title or the query. So the editor's "AI found nothing"
  message never shows for an answer from this route
  (`Enrich.EditorSearchAlwaysFills`).
- The modal's test `message === "Slug already taken" ||
  message.includes("Slug already taken")` is the same as the `includes` test
  alone (`CreateModal.ErrorTextTakenIff`).
- Opening an item for editing and saving it unchanged keeps it only when
  its url and price are not the empty string (`Editor.EditRoundTrip`). An
  item added through the form with a blank url or price is stored with ""
  for that field, and saving it unchanged turns the "" into null.
- A thrown error in the editor's AI search is shown by its own message, so
  an `Error` with an empty message leaves no error text and no success
  text; the fallback text appears only when the thrown value is not an
  `Error` (`Editor.AfterAiReply`).
- A code comment says the salt is a "4-digit numeric" value. The code draws
  it with `nanoid(16)`, and the model follows the code.

## Model

| member | source | states |
|---|---|---|
| Text.Trim | src/app/api/ai/enrich/route.ts:7 | `trim` returns the slice of the input left after removing a blank prefix and a blank suffix; the slice neither starts nor ends with whitespace |
| Text.TrimEmptyIffBlank | src/lib/actions.ts:9 | a string trims to empty exactly when every character is JavaScript whitespace |
| Text.ContainsIffOccurs | src/components/CreateWishlistModal.tsx:29 | `includes` holds exactly when the substring occurs at some offset |
| Actions.Message | src/lib/actions.ts:28-32 | a duplicate slug is thrown as "Slug already taken", a missing wishlist as "Wishlist not found", and a missing row with the database's own message |
| Actions.ChooseSlug | src/lib/actions.ts:9 | the custom slug is used verbatim (untrimmed) when it trims to something non-empty; otherwise the generated id is used |
| Actions.CreateWishlist | src/lib/actions.ts:8-33 | creation fails with "slug taken" iff the slug exists, and then adds nothing; otherwise it adds exactly one wishlist with the default title, the caller as owner, the given salt and no PIN, and redirects to `/<slug>/edit` |
| Actions.ExistsIffCreateFails | src/lib/actions.ts:36-42 | `checkWishlistExists` on the chosen slug is true exactly when creation fails, and it is true after a successful creation |
| Actions.CreatePreservesValid | src/lib/actions.ts:13-20 | creation keeps the store invariant (slug keys, non-empty salts) |
| Actions.Reverse | src/lib/actions.ts:52 | the reversed PIN has the same length, and character i is character n-1-i of the PIN |
| Actions.VerifierInjective | src/lib/actions.ts:52 | under one salt, two PINs with the same verifier are equal (the salt prefix cancels and reversal is injective) |
| Actions.SetWishlistPin | src/lib/actions.ts:44-59 | an unknown slug fails with "not found" and changes nothing; otherwise only that wishlist's verifier changes, to salt followed by the reversed PIN, and its salt and every other wishlist and item stay |
| Actions.VerifyWishlistPin | src/lib/actions.ts:61-72 | an unknown slug gives false; a missing or empty verifier gives NOT_SET; otherwise true iff the recomputed verifier equals the stored one |
| Actions.SetThenVerify | src/lib/actions.ts:49-71 | after setting PIN p, verifying PIN q answers true iff q equals p |
| Actions.ExistsIffSetPinSucceeds | src/lib/actions.ts:36-47 | `checkWishlistExists` is true exactly when setting a PIN on the slug succeeds |
| Actions.AddItem | src/lib/actions.ts:74-90 | an unknown slug fails with "not found"; otherwise exactly one item is added under the fresh id, linked to that wishlist's id with the given fields, and no wishlist changes |
| Actions.DeleteItem | src/lib/actions.ts:92-95 | a missing id fails; otherwise exactly that id leaves the item table and every other item is unchanged |
| Actions.ApplyPatch | src/lib/actions.ts:98-106 | an `undefined` field keeps the old value, a given field (null included) replaces it; the id, parent and timestamp are unchanged |
| Actions.UpdateItem | src/lib/actions.ts:97-108 | a missing id fails; otherwise only that item changes, as the patch says |
| Actions.ItemOperationsPreserveValid | src/lib/actions.ts:74-106 | add, delete and update keep the store invariant |
| Actions.AddThenDelete | src/lib/actions.ts:78-93 | deleting the item just added gives back the previous store |
| Actions.EmptyPatchIsIdentity | src/lib/actions.ts:98-106 | an update with every field undefined leaves the store unchanged |
| Editor.Initial | src/components/WishlistEditor.tsx:23-41 | the editor starts with the given items, nothing being edited, and the PIN form shown iff no PIN is set |
| Editor.AddItemRequest | src/components/WishlistEditor.tsx:69-78 | no call when the name is blank; otherwise the form's name, url and price are sent, and the image only when it is non-empty |
| Editor.HandleAddItem | src/components/WishlistEditor.tsx:67-90 | a blank name changes nothing; on success the returned item is appended at the end and the form is cleared; submitting ends on both the success and the error path; nothing else in the editor changes |
| Editor.RemoveById | src/components/WishlistEditor.tsx:144 | the filtered list holds exactly the items whose id differs |
| Editor.RemoveByIdAppend | src/components/WishlistEditor.tsx:144 | filtering distributes over concatenation, so the kept items keep their order |
| Editor.RemoveByIdIdempotent | src/components/WishlistEditor.tsx:144 | filtering the same id twice removes nothing more |
| Editor.HandleDeleteItem | src/components/WishlistEditor.tsx:140-148 | without confirmation or after a failed delete nothing changes; otherwise the list becomes the filtered list |
| Editor.AddThenDeleteItem | src/components/WishlistEditor.tsx:140-148 | deleting an item just added under a fresh id gives back the previous list |
| Editor.StartEdit | src/components/WishlistEditor.tsx:150-155 | the edit fields copy the item's name, url and price, with null shown as ""; nothing else in the editor changes |
| Editor.CancelEdit | src/components/WishlistEditor.tsx:157-162 | nothing is being edited and all edit fields are empty; nothing else in the editor changes |
| Editor.StartThenCancel | src/components/WishlistEditor.tsx:150-162 | cancelling forgets everything that starting an edit recorded |
| Editor.FindIndex | src/components/WishlistEditor.tsx:166 | the first index with that id, or none exactly when no item has it |
| Editor.EditIndex | src/components/WishlistEditor.tsx:165-167 | the index is the first item holding the edited id, and there is none exactly when nothing (or the empty id) is being edited or no item holds that id |
| Editor.Merge | src/components/WishlistEditor.tsx:168-173 | an empty edited name keeps the old name, an empty url or price becomes null, and the id and image stay |
| Editor.UpdateRequest | src/components/WishlistEditor.tsx:168-179 | the update sends the edited id and sets the name (the edited one, or the old one when the edit is empty) and the url and price (null when the edit is empty), leaving the image untouched |
| Editor.HandleUpdateItem | src/components/WishlistEditor.tsx:164-188 | with nothing to edit, or on failure, nothing changes; on success only index idx changes, to the merged item, the length stays, and editing ends; the add form, the AI status, the PIN form and the submitting flag are unchanged |
| Editor.EditRoundTrip | src/components/WishlistEditor.tsx:150-182 | opening an item for editing and saving it unchanged leaves the list as it was (when its url and price are not the empty string) |
| Editor.UpdateAgreesWithStore | src/components/WishlistEditor.tsx:168-179 | the update the editor sends makes the stored item's name, url, price and image match the editor's merged item |
| Editor.SetPinRequest | src/components/WishlistEditor.tsx:192-195 | a PIN shorter than 4 characters is rejected without calling `setWishlistPin` |
| Editor.HandleSetPin | src/components/WishlistEditor.tsx:190-203 | the PIN form closes only after a PIN of at least 4 characters was stored, and nothing else changes |
| Editor.ShortPinChangesNothing | src/components/WishlistEditor.tsx:192 | a PIN shorter than 4 characters sends no request and leaves the editor as it was, whatever the server would have answered |
| Editor.MergeAiResult | src/components/WishlistEditor.tsx:121-124 | each form field takes the result's value iff that value is truthy; nothing else changes |
| Editor.AfterAiReply | src/components/WishlistEditor.tsx:98-137 | a response that is not ok or carries an error shows that error (or the default text) and keeps the form; a thrown error shows its own message, even an empty one, and the fallback text only when the thrown value is not an `Error`; a result shows the success message iff some field was truthy, else the "nothing found" error with no success text; searching always ends, and only the form and the AI status change |
| Editor.HandleAiSearch | src/components/WishlistEditor.tsx:92-96 | a blank name only shows the hint and sends nothing |
| ClaimButton.Initial | src/components/ClaimButton.tsx:15-17 | the button starts with no identity, the rendered claims, and no request in flight |
| ClaimButton.MineAndTakenExclusive | src/components/ClaimButton.tsx:18-19 | "claimed by me" and "claimed by someone else" are never both true, and a non-empty claim list is one of them |
| ClaimButton.InitUserId | src/components/ClaimButton.tsx:21-30 | a stored non-empty id is reused and storage is left alone; otherwise the generated id is stored and used |
| ClaimButton.InitUserIdStable | src/components/ClaimButton.tsx:22-29 | after initialisation the storage holds the identity, and the next initialisation keeps the same identity whatever it generates |
| ClaimButton.ToggleRequest | src/components/ClaimButton.tsx:32-35 | without an identity nothing is sent; otherwise "unclaim" iff the claim is mine, else "claim" |
| ClaimButton.ToggleClaim | src/components/ClaimButton.tsx:32-73 | without an identity nothing changes; on an ok response without an error, the claims become the server's list (or [] if it sent none); any failure leaves them unchanged; loading ends |
| ClaimButton.ToggleOutcome | src/components/ClaimButton.tsx:63-66 | after any successful reply the claim is mine iff the server's list holds my identity, taken iff the list is non-empty without me, and free iff it is empty |
| ClaimButton.LabelOf | src/components/ClaimButton.tsx:94 | the label is "mine" iff the claim is mine, "taken" iff someone else holds it, and "free" iff there are no claims |
| ClaimButton.DisabledIffTaken | src/components/ClaimButton.tsx:78 | the button is disabled iff loading or the label reads "taken" |
| CreateModal.Sanitize | src/components/CreateWishlistModal.tsx:84 | the filtered slug contains only letters, digits, `-` and `_`, and every such character of the input |
| CreateModal.SanitizeAppend | src/components/CreateWishlistModal.tsx:84 | filtering distributes over concatenation: the result is the in-order subsequence of allowed characters |
| CreateModal.SanitizeKeepsSlugs | src/components/CreateWishlistModal.tsx:84 | a string made of allowed characters passes unchanged |
| CreateModal.SanitizeIdempotent | src/components/CreateWishlistModal.tsx:84 | filtering twice is the same as filtering once |
| CreateModal.SanitizedSlugChoice | src/components/CreateWishlistModal.tsx:25 | a filtered custom slug is used verbatim when non-empty; the generated one is used when it is empty |
| CreateModal.ErrorText | src/components/CreateWishlistModal.tsx:29-33 | a failure shows either the "ID taken" text or the generic text |
| CreateModal.ErrorTextTakenIff | src/components/CreateWishlistModal.tsx:29 | the "ID taken" text shows exactly when the message contains "Slug already taken" |
| CreateModal.HandleSubmit | src/components/CreateWishlistModal.tsx:19-35 | after a failure, loading is off and the mapped text is shown; a redirect leaves the error empty |
| CreateModal.SubmitOutcomeOf | src/components/CreateWishlistModal.tsx:24-29 | a successful creation reaches the dialog as the redirect, and a failure as its thrown message |
| CreateModal.TakenTextIffSlugTaken | src/components/CreateWishlistModal.tsx:29-33 | the "ID taken" text shows exactly for a duplicate slug, as long as the database's own message does not mention "Slug already taken" |
| CreateModal.NotFoundIsNotTaken | src/lib/actions.ts:47 | "Wishlist not found" does not contain "Slug already taken" |
| CreateModal.DuplicateSlugShowsTaken | src/components/CreateWishlistModal.tsx:24-30 | a creation that fails fails on a duplicate slug, and the dialog shows it with the "ID taken" text |
| Enrich.FilterUrlByHost | src/app/api/ai/enrich/route.ts:34-45 | the result is the input URL, unchanged, exactly when the input is non-empty, parses, and its hostname is on the allow-list; otherwise null |
| Enrich.SanitizePrice | src/app/api/ai/enrich/route.ts:5-15 | a missing or empty price stays null; a price containing "₽" or "руб" (any case) is returned trimmed; any other price goes to the numeric conversion and gets the " ₽" suffix |
| Enrich.TrimKeepsMarker | src/app/api/ai/enrich/route.ts:7 | trimming keeps a ruble marker, at the same place relative to the trimmed text |
| Enrich.PriceIsInRubles | src/app/api/ai/enrich/route.ts:5-15 | a sanitised price is non-empty and always carries a ruble marker |
| Enrich.Assemble | src/app/api/ai/enrich/route.ts:122-133 | the title is the model's if truthy, else the query; the link goes through the allow-list; the image is non-empty and is the model's own |
| Enrich.Post | src/app/api/ai/enrich/route.ts:47-138 | a missing or blank query gives 400 with its message; a missing key gives 500 with its message; a failed upstream status, an unparsable answer and a thrown error each give 500 with their own message; only a parsed answer gives a result, assembled from it |
| Enrich.RejectsBeforeUpstream | src/app/api/ai/enrich/route.ts:51-61 | the query and key rejections do not depend on the upstream answer |
| Enrich.ResultUrlAllowed | src/app/api/ai/enrich/route.ts:123-130 | every link in a result has an allowed hostname |
| Enrich.ImageFilterIsNoOp | src/app/api/ai/enrich/route.ts:124 | the result image is the model's image whenever it is non-empty, whatever its host |
| Enrich.ResultTitleNonEmpty | src/app/api/ai/enrich/route.ts:128 | a result always has a non-empty title |
| Enrich.AsEditorReply | src/app/api/ai/enrich/route.ts:126-133 | a result reaches the editor as an ok response without error, whose title is the result's title |
| Enrich.EditorSearchAlwaysFills | src/components/WishlistEditor.tsx:114-130 | a non-blank name, a configured key and a parsed upstream answer always give a success, and the editor's search then takes the returned title and shows the success message |
| OwnerListing.Project | src/app/api/wishlists/route.ts:16-28 | a row copies the slug, title and timestamp, and counts exactly the items whose parent is that wishlist |
| OwnerListing.InsertDesc | src/app/api/wishlists/route.ts:14 | inserting into a newest-first list keeps it newest first, adds exactly the new row, and keeps rows distinct |
| OwnerListing.ListWishlists | src/app/api/wishlists/route.ts:4-30 | a missing or empty owner gives 400 "ownerId is required"; otherwise the rows are newest first, one per wishlist of that owner, none twice, and each is projected from its wishlist |

## Left out

- `getWishlist` (src/lib/actions.ts:110-116): a single read whose item order is left to the database; nothing to state beyond the map lookup.
- Framework effects: `redirect` is modelled only as the target path; `revalidatePath` and the Next.js response plumbing are not modelled.
- Database failures other than a duplicate slug and a missing row are not modelled. `createWishlist` rethrows them unchanged. Its "Failed to create wishlist" branch cannot be reached, because a create returns the row or throws.
- Claims are not part of the store, and the claim route is not part of this model. Only the client's view in `ClaimButton` is modelled; no at-most-one-claim property is stated.
- Rendering, styling, animation, `alert` and `console` are UI only. The answer to `confirm` is a boolean parameter. The alert text for a failed claim is not modelled.
- Image upload and drag-and-drop (`FileReader`) are browser I/O; the image is just a form field.
- Async interleavings: each handler runs to completion in one step, from the state before it. Stale React closures and the short-lived `isSubmitting` / `loading` = true states during a request are not modelled.
- The PIN input's `maxLength={4}` is a browser constraint, not modelled. The model accepts PINs of any length from 4 up.
- Enrich.SanitizePrice: the numeric branch (`Number`, `Math.round`, ×95, `toLocaleString`) is floating point and locale formatting. It is the parameter `numeric`, which yields the text placed before " ₽".
- Enrich.FilterUrlByHost: `new URL` parsing is the parameter `hostOf`, which gives `None` where parsing throws.
- Enrich.Post: the Gemini call, the prompt, `JSON.parse` and the regex extraction are external or opaque. They are summarised by the `Upstream` outcome. Non-string JSON field values are not modelled.
- OwnerListing.ListWishlists: the database does not fix the order of wishlists with equal `createdAt`. The model picks one order, and the contract states only newest-first order.
- Editor.SetPinRequest: JavaScript's `.length` counts UTF-16 code units, while the model counts Unicode scalar values, so a PIN with characters outside the Basic Multilingual Plane is measured differently (the source sends "😀😀" as 4 units, the model refuses it as 2 characters).
- Actions.Reverse: the source reverses UTF-16 code units and so splits a surrogate pair; the model reverses scalar values. PINs made of Basic Multilingual Plane characters behave the same in both.
- Snowfall, ThemeToggle, the landing and board pages, and the public and editor pages are random, DOM-bound, or static markup.
