# Bookstore page: a Dafny model of the book-list handlers

The bookstore front end shows a list of book cards fetched from a small REST
backend. It lets the user create books optimistically, edit them through a
modal, and delete them. This project models the page state and its event
handlers from `06_PATCH_and_DELETE_requests/src/index.js` as pure
transitions. There is no DOM and no HTTP. Whatever the network answered is
a parameter of the handler that reacts to it.

- `optional.dfy` (`Optional`): the `Option` type. A card whose `data-id` reads
  "undefined" has id `None`.
- `seqs.dfy` (`Seqs`): the first-match search that `querySelector` performs,
  and removal at a position.
- `text.dfy` (`Text`): JavaScript `trim` over the ECMA-262 whitespace and
  line-terminator code points, and `validateFormData`.
- `stock.dfy` (`Stock`): the three-tier label used when a card is rendered,
  and the two-tier label written after an edit.
- `forms.dfy` (`Forms`): `fillIn`, as a loop over the record's fields that
  writes only to controls the form has.
- `chrome.dfy` (`Chrome`): the two collapsible forms and their button texts.
- `catalog.dfy` (`Catalog`): cards, the page, and every handler:
  - render and load;
  - submit, then settle the POST;
  - delete, open edit, patch;
  - toggle, Escape, and closing the modal.
- `flows.dfy` (`Flows`): properties that span several handlers:
  - removal is filtering;
  - rollback restores the list;
  - confirm sets the id;
  - the first-match subtlety of the pending lookup;
  - Escape is idempotent.

Each card records three things besides its fields:
- `node`: the element's identity. The page allocates these from a counter, and
  `Wf` says they are distinct.
- `id`: the `data-id` attribute.
- `recordId`: the `book.id` that the card's Edit and Delete closures
  captured. It stays `None` forever for an optimistically created card.

The pending element of a create is found once, at submit time, as the first
card with no id. The POST's callbacks then act on that element. So confirm
and rollback hit the new card only when no earlier creation is still
pending. `Flows.EarlierPendingIsTargeted` proves what happens otherwise:
- a failed POST removes the earlier card and leaves the new one behind;
- an ok POST gives the new id to the earlier card, and the new card keeps no
  id.

Behaviours of the code worth knowing:
- Escape only collapses the two forms. It does not close the edit modal.
- The create-time label is "Only a few left!" for every count below three
  except zero, negative counts included.
- Validation trims each field, so a whitespace-only field is refused.
- The pending card is the first card with no id, not a unique one.
- The Edit handler records only the captured `book.id`. After a created card
  is confirmed, Delete reaches the card's server id through its `data-id`
  fallback, but Edit still records no id (`Flows.ConfirmedCardTargets`).

## Model

| member | source | states |
|---|---|---|
| Text.Trim | 06_PATCH_and_DELETE_requests/src/index.js:226 | the result is a slice of the string with only whitespace before and after it; it is empty exactly when every character is ECMAScript whitespace, and otherwise it starts and ends with a non-whitespace character |
| Text.ValidateFormData | 06_PATCH_and_DELETE_requests/src/index.js:225-227 | true exactly when every value has a non-whitespace character: a whitespace-only value is refused, the empty list is accepted |
| Stock.CreateTimeLabel | 06_PATCH_and_DELETE_requests/src/index.js:86-92 | out of stock exactly at zero; "only a few left" exactly for non-zero counts below three, negatives included; in stock exactly from three up |
| Stock.EditTimeLabel | 06_PATCH_and_DELETE_requests/src/index.js:336 | in stock exactly when the count is non-zero, out of stock exactly at zero, never "a few left" |
| Stock.LabelsDisagree | 06_PATCH_and_DELETE_requests/src/index.js:86-92 | the render-time and edit-time labels differ exactly for non-zero counts below three, where one says "a few left" and the other "in stock" |
| Stock.TextInjective | 06_PATCH_and_DELETE_requests/src/index.js:86-92 | two labels show the same text exactly when they are the same tier |
| Forms.FillIn | 06_PATCH_and_DELETE_requests/src/index.js:164-174 | the form keeps exactly its own controls; a control named by the record takes the record's value, any other control keeps its value, and record fields without a control are ignored, whatever order the fields are visited in |
| Chrome.Toggle | 06_PATCH_and_DELETE_requests/src/index.js:187-203 | the collapsed flag flips and the button reads "New Book"/"New Store" when collapsed, "Hide Book Form"/"Hide Store Form" when expanded |
| Chrome.Dismiss | 06_PATCH_and_DELETE_requests/src/index.js:211-220 | after Escape the form is collapsed; an already collapsed form is untouched; an expanded one gets the collapsed button text |
| Chrome.ToggleTwice | 06_PATCH_and_DELETE_requests/src/index.js:187-203 | toggling twice restores a form whose button text agreed with it |
| Chrome.ToggleLabels | 06_PATCH_and_DELETE_requests/src/index.js:187-203 | after a toggle the button text always agrees with the form |
| Catalog.FindId | 06_PATCH_and_DELETE_requests/src/index.js:245 | the selector lookup returns the first card in list order whose `data-id` matches, or nothing when none does |
| Catalog.RenderBook | 06_PATCH_and_DELETE_requests/src/index.js:69-139 | one card is appended after the existing ones, showing the record's fields with the three-tier label and tagged with its id; the element is new, and nothing else on the page changes |
| Catalog.LoadBooks | 06_PATCH_and_DELETE_requests/src/index.js:20-23 | one card per fetched record is appended in the order returned, each showing that record, tagged with its id, and with that id captured for its Edit and Delete buttons |
| Catalog.Submit | 06_PATCH_and_DELETE_requests/src/index.js:229-288 | an invalid form only raises the alert: the page is unchanged and no POST is sent. A valid form sends a POST with the form's record and no reviews, resets the form, and appends exactly one card with no id showing the form's values. The pending element is the new card when nothing was pending before, and otherwise the first card still without an id |
| Catalog.Settle | 06_PATCH_and_DELETE_requests/src/index.js:254-268 | only the list changes. An ok POST writes the server id into the pending element and changes no other card. A not-ok status or a failed fetch removes that element. An element already gone leaves the page as it was |
| Catalog.Delete | 06_PATCH_and_DELETE_requests/src/index.js:128-136 | the DELETE names the captured record id, else the `data-id`. An ok response removes the element and shortens the list by one; any other response leaves the page unchanged; nothing else changes |
| Catalog.OpenEdit | 06_PATCH_and_DELETE_requests/src/index.js:101-123 | the modal opens and the edit form records the card's captured record id; the list and the forms are unchanged |
| Catalog.Patch | 06_PATCH_and_DELETE_requests/src/index.js:309-346 | an invalid form sends nothing and changes nothing. Otherwise the PATCH goes to the recorded target. A not-ok status raises the alert and leaves the page and the open modal as they were. A rejected fetch has no handler: no alert, and the page and the modal stay as they were. An ok response that matches no card changes nothing |
| Catalog.PressToggle | 06_PATCH_and_DELETE_requests/src/index.js:187-207 | the pressed form's collapsed flag flips and its button text agrees with it; the other form, the list and the modal are unchanged |
| Catalog.Escape | 06_PATCH_and_DELETE_requests/src/index.js:211-220 | both forms end collapsed; a form already collapsed is untouched; the list and the modal are unchanged |
| Catalog.CloseModal | 06_PATCH_and_DELETE_requests/src/index.js:353-356 | the modal is closed and nothing else changes |
| Catalog.ClickWindow | 06_PATCH_and_DELETE_requests/src/index.js:358-363 | a click on the modal's backdrop closes it; any other click changes nothing |
| Flows.WithoutContents | 06_PATCH_and_DELETE_requests/src/index.js:133 | filtering an element out keeps exactly the cards of the other elements |
| Flows.RemoveAtIsWithout | 06_PATCH_and_DELETE_requests/src/index.js:133 | removing the element's only card at its position is the same as filtering that element out of the list |
| Flows.DeleteIsWithout | 06_PATCH_and_DELETE_requests/src/index.js:130-135 | an ok DELETE removes exactly that card and keeps the rest in their order |
| Flows.SettleFailureIsWithout | 06_PATCH_and_DELETE_requests/src/index.js:255-267 | a failed POST removes exactly the pending card and keeps the rest in their order |
| Flows.SubmitAppends | 06_PATCH_and_DELETE_requests/src/index.js:244-245 | a valid submit leaves the old list followed by one new card that has no id and a new element; with nothing pending before, that card is the pending one |
| Flows.SettleAppended | 06_PATCH_and_DELETE_requests/src/index.js:255-261 | settling the appended card either gives it the id or takes it back out, and the earlier cards stay |
| Flows.RollbackRestores | 06_PATCH_and_DELETE_requests/src/index.js:244-267 | with nothing pending before, a submit followed by a not-ok or failed POST leaves the list as it was before the submit |
| Flows.ConfirmSetsNewId | 06_PATCH_and_DELETE_requests/src/index.js:245-261 | with nothing pending before, a submit followed by an ok POST leaves the old list plus the new card carrying the server id, and no card is left pending |
| Flows.EarlierPendingIsTargeted | 06_PATCH_and_DELETE_requests/src/index.js:245 | with an earlier card still pending, the pending element is that earlier card. A failed POST then removes the earlier card and keeps the new one, so the list is not restored. An ok POST gives the id to the earlier card, and the new card keeps no id |
| Flows.SettleEarlier | 06_PATCH_and_DELETE_requests/src/index.js:255-267 | settling an earlier card leaves a card appended after it as it was |
| Flows.ConfirmedCardTargets | 06_PATCH_and_DELETE_requests/src/index.js:122-130 | after a created card is confirmed, its Delete request names the server id, while its Edit button records no id and opens the modal |
| Flows.PatchRewritesFirstMatch | 06_PATCH_and_DELETE_requests/src/index.js:329-339 | an ok PATCH rewrites the first card whose `data-id` matches the returned record. Title, author, price, image and the two-tier label change; the element and its `data-id` stay. Every other card is unchanged, no alert is raised, and the modal closes |
| Flows.PatchKeepsWf | 06_PATCH_and_DELETE_requests/src/index.js:332-337 | a patch keeps the card elements distinct, since it rewrites a card in place |
| Flows.EscapeIdempotent | 06_PATCH_and_DELETE_requests/src/index.js:211-220 | pressing Escape twice gives the same page as pressing it once |
| Flows.EscapeKeepsLabels | 06_PATCH_and_DELETE_requests/src/index.js:211-220 | Escape keeps each button's text in step with its form |
| Flows.EditRelabelsFewLeft | 06_PATCH_and_DELETE_requests/src/index.js:336 | rendering a record and then patching its card with the same record changes the card's label exactly when the count is non-zero and below three |

## Left out

- Network I/O is not modelled: `fetch`, `getJSON`, request headers, JSON
  bodies and response parsing. Each response is an outcome parameter:
  `Created(id)`/`PostNotOk`/`PostFailed` for the POST, a boolean for the
  DELETE, and `Patched(book)`/`PatchNotOk`/`PatchFailed` for the PATCH. A
  rejected DELETE is not modelled apart from a not-ok one: neither changes
  the page. The fetched list
  is a parameter of `LoadBooks`.
- The stores are not modelled: the store bootstrap, the store selector, the
  header and footer renderers, the stale-response race on store selection,
  and the programmatic prefill of the store form. They are DOM output,
  concurrency, or demonstration data.
- `renderError` is not modelled: the error banner and its own Escape
  listener are user-interface output with no state the book handlers read.
- `formatPrice` is not modelled because it is floating-point formatting. A card keeps
  the price itself, and the shown text is a function of it. Prices are
  `real`, not IEEE doubles.
- Input parsing is not modelled (`valueAsNumber`, `parseInt`). A form carries the
  number read from the price field and the integer read from the inventory
  field. So a `NaN` inventory is not modelled. At create time `NaN` would
  read "In stock", and after an edit it would read "Out of stock".
- The GET that the Edit button sends is not wired to the page. `Forms.FillIn`
  models what happens when it succeeds. The page does not hold the edit
  form's field values, and the form reset after a submit is reported as a
  flag.
- `alert`, `console` logging and `preventDefault` are reported as effects
  (an alert text, a request) or dropped.
- Identifiers are strings, and a missing id is `None`. The DOM would render
  it as the literal "undefined", which the model does not confuse with a real
  id spelled that way. Selectors broken by quotes in an id are not modelled.
- Forms.FillIn: the form is only its named controls. `for ... in` over
  inherited properties, and form properties that are not controls (such as
  the form's own `id`), are not modelled. Record values are taken as already
  converted to strings.
- Catalog.Patch: the contract covers the failure and no-match cases. The
  success case is stated by `Flows.PatchRewritesFirstMatch` and the element
  invariant by `Flows.PatchKeepsWf`.
- Only one transition runs at a time. Interleavings between an in-flight
  request and later events are modelled only by calling the transitions in
  some order. This is how the pending-create lemmas set up an earlier
  pending card.
