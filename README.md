# Inventory manager view-model, in Dafny

This project models the state logic of the `InventoryManager` React
component, a single-page client for a remote inventory service. The model
covers the six pieces of state the component holds:

- `items`: the list of all items as last returned by the server;
- `item`: the add/edit form;
- `idToFetch`: the text of the lookup input;
- `fetchedItem`: the result of the last lookup, or `null`;
- `message`: the status line;
- `editMode`: adding a new item (false) or editing an existing one (true).

It also covers every handler that overwrites that state, plus the rule that
colours the status line.

The model is split into five files:

- `outcomes.dfy` (`Outcomes`): `Option` stands for `null`-or-value. `Outcome`
  stands for what an awaited request produced: `Ok(payload)` or `Fail`.
- `js_values.dfy` (`JsValues`): the JavaScript semantics the component
  leans on:
  - a field value is `Str | Num | Null | Missing`, where `Missing` stands for
    `undefined`;
  - truthiness;
  - `String(v)`, with a decimal rendering of integers proved to read back to
    the same number;
  - `trim` over the ECMAScript whitespace and line-terminator set;
  - `toLowerCase` and `includes`.
- `validation.dfy` (`Validation`): items as `map<string, Value>`, the key
  order `itemKeys`, the per-field test of `validateForm` (`CheckField`
  evaluates it as written and is proved to agree with `Filled`), and its
  first-failure rule as a specification function (`FirstUnfilled`,
  `ValidationFailure`).
- `status_message.dfy` (`StatusMessage`): the fixed texts the handlers
  show, and the rule that a message is hidden when empty, red when its
  lower-case form contains `error`, and green otherwise.
- `inventory_manager.dfy` (`InventoryManager`): the `InventoryManager`
  class. Its six fields are the six pieces of state, and it has one method
  per handler.
  - Each network request's outcome is a parameter.
  - A handler returns the request it sent (`None` when validation stopped
    it).
  - Add, update and delete also return `refresh`. It says whether the
    handler launched `fetchAllItems()`. The effect of that refresh is a
    separate, later `FetchAllItems` call.
  - The methods' `modifies` frames say which fields each handler may touch.
  - Two client methods (`EditThenCancel`, `DeleteThenFailedRefresh`) replay
    short sessions using only these contracts.

Consequences the lemmas make explicit:

- A field holding the number `0` fails validation. So an out-of-stock item
  loaded with `handleEdit` cannot be saved until its stock is retyped: typed
  input is the string `"0"`, which passes.
- `Failed to fetch inventory items.` and `Item not found.` are shown in
  green.
- An edit notice for an item whose id itself contains "error", in any
  letter case, is shown in red.

## Model

| member | source | states |
|---|---|---|
| `JsValues.Truthy` | FRONTEND/FRONTEND/src/components/InventoryManager.jsx:43 | `!value` is false exactly for a non-empty string, a number whose string form is not `0`, and never for `null` or `undefined` |
| `JsValues.Trim` | FRONTEND/FRONTEND/src/components/InventoryManager.jsx:43 | `trim()` returns `s` with exactly its leading and trailing whitespace cut: the result is a contiguous part of `s`, everything cut away is whitespace, and the result neither starts nor ends with whitespace |
| `JsValues.TrimIsEmptyIffBlank` | FRONTEND/FRONTEND/src/components/InventoryManager.jsx:43 | `s.trim() === ''` holds exactly when every character of `s` is whitespace, the empty string included |
| `JsValues.NumberToString` | FRONTEND/FRONTEND/src/components/InventoryManager.jsx:43 | a number's string form is never empty and consists of decimal digits after an optional leading minus, present exactly for negative numbers, with no leading zero: `0` alone begins with the digit zero |
| `JsValues.NumberToStringRoundTrip` | FRONTEND/FRONTEND/src/components/InventoryManager.jsx:99 | reading a rendered id back as a decimal gives the id, so the edit notice identifies the item |
| `JsValues.ToJsString` | FRONTEND/FRONTEND/src/components/InventoryManager.jsx:43 | `String(v)` and a template literal leave a string as it is, render a number as a signed decimal that reads back as the number, and render `null` and `undefined` by name; `v.toString()` agrees on strings and numbers and throws on `null` and `undefined`, which the guard at line 43 never lets it reach |
| `Validation.CheckField` | FRONTEND/FRONTEND/src/components/InventoryManager.jsx:43 | the test as written (the field fails when it is falsy or when its `toString().trim()` is `''`) lets a field through exactly when it is truthy and its string form holds a non-whitespace character |
| `Validation.FilledIff` | FRONTEND/FRONTEND/src/components/InventoryManager.jsx:43 | a field passes the test of line 43 (truthy, and not blank once trimmed) exactly when it is a string with a non-whitespace character or a non-zero number; null and a missing key never pass |
| `Validation.FirstUnfilled` | FRONTEND/FRONTEND/src/components/InventoryManager.jsx:41-49 | no failure is reported exactly when every key's field passes; a reported key is one of the keys and its field fails |
| `Validation.FirstUnfilledIsFirst` | FRONTEND/FRONTEND/src/components/InventoryManager.jsx:42-46 | when the fields before position i pass and the one at i fails, the key at i is the one reported (first failure only) |
| `Validation.ValidationFailureAt` | FRONTEND/FRONTEND/src/components/InventoryManager.jsx:22 | the first-failure rule applied to the fixed key order `id, name, category, stock, price` |
| `Validation.ZeroFieldFails` | FRONTEND/FRONTEND/src/components/InventoryManager.jsx:43 | a form holding the number 0 in any of the five fields fails validation |
| `Validation.BlankFieldFails` | FRONTEND/FRONTEND/src/components/InventoryManager.jsx:43 | a form holding a whitespace-only string in any of the five fields fails validation |
| `Validation.FillPrompt` | FRONTEND/FRONTEND/src/components/InventoryManager.jsx:44 | the prompt names the failing key at a fixed place, so the five keys get five different prompts |
| `Validation.EmptyFormReportsId` | FRONTEND/FRONTEND/src/components/InventoryManager.jsx:8-14 | submitting the initial (or a freshly reset) form reports the `id` field |
| `StatusMessage.EditingMessage` | FRONTEND/FRONTEND/src/components/InventoryManager.jsx:99 | the edit notice is the fixed lead-in followed by the id's string form; a numeric id reads back from the notice as the id |
| `StatusMessage.ErrorMessageIff` | FRONTEND/FRONTEND/src/components/InventoryManager.jsx:117 | `message.toLowerCase().includes('error')` holds exactly when some five consecutive characters of the message spell "error" in any mix of letter case |
| `StatusMessage.BannerOf` | FRONTEND/FRONTEND/src/components/InventoryManager.jsx:116-117 | the status line is hidden exactly when the message is empty, and red exactly when the message contains "error" in any letter case; otherwise green |
| `StatusMessage.NoErIsNotError` | FRONTEND/FRONTEND/src/components/InventoryManager.jsx:117 | a message with no "er" pair after lower-casing never contains "error" and so is never coloured as an error |
| `StatusMessage.MutationFailuresAreRed` | FRONTEND/FRONTEND/src/components/InventoryManager.jsx:116-117 | `Error adding item.`, `Error updating item.` and `Error deleting item.` are shown in red |
| `StatusMessage.SuccessMessagesAreGreen` | FRONTEND/FRONTEND/src/components/InventoryManager.jsx:116-117 | `Item added successfully.` and `Item updated successfully.` are shown in green |
| `StatusMessage.LookupAndRefreshMessagesAreNotRed` | FRONTEND/FRONTEND/src/components/InventoryManager.jsx:116-117 | `Failed to fetch inventory items.` and `Item not found.` are shown in green, and the empty message after a successful lookup hides the banner |
| `StatusMessage.FillPromptsAreGreen` | FRONTEND/FRONTEND/src/components/InventoryManager.jsx:116-117 | the validation prompt for each of the five keys is shown in green |
| `StatusMessage.EditingNumericIdIsGreen` | FRONTEND/FRONTEND/src/components/InventoryManager.jsx:116-117 | the edit notice for an item with a numeric id, of any sign, is shown in green |
| `StatusMessage.EditingErrorIdIsRed` | FRONTEND/FRONTEND/src/components/InventoryManager.jsx:117 | the colour depends on the text alone: an edit notice whose id's string form contains "error" in any letter case is red |
| `InventoryManager.InventoryManager.constructor` | FRONTEND/FRONTEND/src/components/InventoryManager.jsx:7-18 | initial state: no items, the empty form, empty lookup input, no fetched item, empty message, adding mode |
| `InventoryManager.InventoryManager.FetchAllItems` | FRONTEND/FRONTEND/src/components/InventoryManager.jsx:28-35 | sends a list request; on success replaces `items` wholesale with the payload and leaves the message alone; on failure keeps `items` and sets `Failed to fetch inventory items.`; touches nothing else |
| `InventoryManager.InventoryManager.HandleChange` | FRONTEND/FRONTEND/src/components/InventoryManager.jsx:37-39 | the named field now holds the typed string, every other field of the form keeps its value, no field is removed |
| `InventoryManager.InventoryManager.SetIdToFetch` | FRONTEND/FRONTEND/src/components/InventoryManager.jsx:149-155 | the lookup input's text is recorded and nothing else changes |
| `InventoryManager.InventoryManager.ValidateForm` | FRONTEND/FRONTEND/src/components/InventoryManager.jsx:41-49 | returns true exactly when every field passes, leaving the message; otherwise sets `Please fill out the <key> field.` for the first failing key |
| `InventoryManager.InventoryManager.ResetForm` | FRONTEND/FRONTEND/src/components/InventoryManager.jsx:102-111 | whatever the prior state, the form is empty and the mode is adding; the message is untouched |
| `InventoryManager.InventoryManager.AddItem` | FRONTEND/FRONTEND/src/components/InventoryManager.jsx:51-61 | invalid form: no request, no refresh, form and mode unchanged, prompt set; valid: posts the form; on success `Item added successfully.`, refresh launched, form reset, adding mode; on failure `Error adding item.`, form and mode kept |
| `InventoryManager.InventoryManager.UpdateItem` | FRONTEND/FRONTEND/src/components/InventoryManager.jsx:63-73 | as AddItem with a PUT of the form and `Item updated successfully.` / `Error updating item.` |
| `InventoryManager.InventoryManager.DeleteItem` | FRONTEND/FRONTEND/src/components/InventoryManager.jsx:75-83 | sends a delete for the id's string form; on success the server's reply is the message verbatim and a refresh is launched; on failure `Error deleting item.`; only the message changes |
| `InventoryManager.InventoryManager.GetItemById` | FRONTEND/FRONTEND/src/components/InventoryManager.jsx:85-94 | asks for the id in the lookup input; on success the payload is the fetched item and the message is cleared; on failure the fetched item is `null` and the message is `Item not found.`; form, mode and list untouched |
| `InventoryManager.InventoryManager.HandleEdit` | FRONTEND/FRONTEND/src/components/InventoryManager.jsx:96-100 | the form becomes the chosen row as it is, editing mode is on, and the message is `Editing item with ID <id>` |

Behaviour of the code worth noting:

- Validation rejects the number `0` and a `null` field as well as empty or
  whitespace-only strings.
- A failed list refresh and a failed lookup are not coloured as errors,
  because their texts do not contain "error".
- A field value typed into the form is always a string; numbers reach the
  form only through `handleEdit`.

## Left out

- Network I/O: the axios calls, the base URL and `config.url` (lines 4, 20,
  30, 54, 66, 77, 87) are not modelled. Each call is an `Outcome` parameter,
  and the handler returns a `Request` value naming only the operation and
  its id or body.
- Asynchrony: `fetchAllItems()` is not awaited after add, update and delete
  (lines 56, 68, 79). The model returns `refresh` and treats the refresh as a
  later, separate `FetchAllItems` step. Interleaving with other events is
  not modelled. For example, a failing refresh overwrites the success
  message (see `DeleteThenFailedRefresh`).
- Rendering: JSX, styling, the table and the `useEffect` mount hook (lines
  24-26, 113-194) are not modelled. Mounting is the constructor followed by
  one `FetchAllItems`. Which of the Add or Update buttons is visible depends
  on `editMode` (lines 135-142). That choice is UI, so both handlers can be
  called in either mode.
- Response shapes: the list reply is taken to be an array of records, the
  get-by-id reply a record and the delete reply a string. Other JSON shapes
  are not modelled, among them a successful lookup whose body is `null`,
  which leaves `fetchedItem` null in the source.
- JsValues.NumberToString: numbers are integers of magnitude at most 2^53,
  where JavaScript prints every digit. Larger integers, which JavaScript
  prints as the shortest digit string that reads back to the same double
  padded with zeros, are not modelled; neither are floating-point prices,
  NaN, or the exponent notation used from 1e21 up.
- JsValues.LowerChar: only A-Z are lower-cased. No other Unicode character
  lower-cases to one of the letters of "error", so the colour rule is
  unaffected.
- LISTBACKEND/InventoryManagement/src/main/java/com/example/demo/repository/ItemRepository.java
  is an empty Spring Data repository interface with no logic of its own. It
  is not part of this model.
