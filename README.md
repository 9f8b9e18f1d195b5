# rhino-stock inventory core, modelled in Dafny

rhino-stock is a small Next.js/Supabase inventory app for automotive glass.
Counters register a piece of glass by its etiquetado (its product code), its
ubicacion (location) and a unit count. The store keeps a second, independent
count (`unidades_2`) for blind double entry, so two counters check each other.
Administrators see both counts and any mismatch between them. Counters who
are not admins see only the counts they entered themselves. Verifiers tick a
row as confirmed.

This project models the logic of that app:

- how the signed-in user's identity and role are derived;
- the visibility filter of the list page;
- the role label shown in the page header;
- the legacy create/list API;
- the product-search proxy;
- the client row store and the table;
- the create form and the edit dialog;
- the product-code typeahead.

Supabase, `fetch` and the browser are not modelled. Each call into them becomes
an input of the operation that makes it: the session user, the role row, the
store's reply, the upstream answer, the `confirm()` answer and the outcome of
each request. The model has one module per source file:

| module | file | form |
|---|---|---|
| `InventoryTypes` | `inventory_types.dfy` | the row and form records; nullable columns are `Option` fields |
| `Auth` | `auth.dfy` | `getCurrentUser` as a function of an optional user and an optional role row |
| `ListaInventario` | `lista_inventario.dfy` | the filter and the error fallbacks of `getInventoryAndUser` |
| `RoleFormat` | `role_format.dfy` | the role label built by both pages |
| `InventoryRoute` | `inventory_route.dfy` | `GET` and `POST` of the legacy collection handler |
| `SearchRoute` | `search_route.dfy` | the proxy's chain of early returns |
| `InventoryListClient` | `inventory_list_client.dfy` | class `ItemList` holding the `items` sequence |
| `InventoryTable` | `inventory_table.dfy` | display choices as functions; class `TableState` for the in-flight state |
| `InventoryForm` | `inventory_form.dfy` | class `CreateForm` and its validity predicate |
| `EditInventoryModal` | `edit_inventory_modal.dfy` | class `EditModal` and its validity predicate |
| `EtiquetadoSearch` | `etiquetado_search.dfy` | class `SearchWidget` as a state machine |

Shared helpers:

- `Wrappers` holds `Option`.
- `JsValues` holds JSON values, JavaScript truthiness, `trim` and the decimal part of `parseInt`.
- `Http` holds response values.

The typeahead's timing is abstract. Events stand for a change of the parent's
value, the debounce timer firing, a live request completing, and the rejection
of an aborted request arriving. When the value changes, the previous run's
cleanup runs first, then the effect.

Some behaviours of the code are easy to misread; the model follows the code:

- The legacy `POST` stamps `etiquetado_por`, `ubicado_por` and `contado_por`
  with the fixed name "Admin", not with the creator's identity.
- It requires `etiquetado` and `ubicacion` to be truthy, not just present.
- It stores the sent `confirmacion` when truthy and `false` otherwise.
- `GET /api/inventory` returns the rows unfiltered; only the list page
  applies the visibility filter.
- The table passes an `isCreator` flag that the edit dialog never reads. The
  dialog behaves the same for creators and others.
- The dialog's `confirmacion` starts undefined, because the row type has no
  such column. It is sent only once the checkbox has been touched.
- Both client forms require `unidades > 0`. The server accepts 0 and null and
  refuses only an absent count. It also accepts a tag or location made only of
  spaces.

## Model

| member | source | states |
|---|---|---|
| Auth.GetCurrentUser | src/app/lib/auth/user.ts:11-38 | a user id exists exactly when there is a session user, and it is that user's id; the role name is the row's name or "viewer"; a non-empty session email is shown as it is, and the email is never empty; verifying needs a user and a role row; admin needs a user |
| Auth.RoleName | src/app/lib/auth/user.ts:29 | definition of the role name: the row's name, or "viewer" without a row (characterised by MissingRoleIsViewer) |
| Auth.HierarchyLevel | src/app/lib/auth/user.ts:35 | definition of the level: the row's level, or 0 without a row (characterised by IsAdminIff) |
| Auth.IsVerifierRole | src/app/lib/auth/user.ts:36 | definition of the verifier names: admin, super_admin and quality_assurance (characterised by CanVerifyIff) |
| Auth.NoUserIsGuest | src/app/lib/auth/user.ts:16-18 | with no session user the result is the guest identity "Unknown", no id, not admin, not verifier, "viewer", whatever the role row |
| Auth.MissingRoleIsViewer | src/app/lib/auth/user.ts:27-36 | a missing role row gives role "viewer", not admin and not verifier |
| Auth.IsAdminIff | src/app/lib/auth/user.ts:35 | admin holds iff the role level is at least 80 or the role is quality_assurance |
| Auth.CanVerifyIff | src/app/lib/auth/user.ts:36 | verifier holds iff the role name is admin, super_admin or quality_assurance, and the level never matters |
| Auth.RoleCombinations | src/app/lib/auth/user.ts:34-36 | quality_assurance is admin and verifier at any level; admin and super_admin below 80 verify without seeing both counts; another role at 80 sees both counts without verifying |
| Auth.MissingEmailIsUnknown | src/app/lib/auth/user.ts:32-33 | a user with no or an empty email is shown as "Unknown" and keeps the user id |
| ListaInventario.MaskCounts | src/app/lista-inventario/page.tsx:26-30 | only the two counts may change; a count survives exactly when the viewer recorded it |
| ListaInventario.MaskAll | src/app/lista-inventario/page.tsx:26-30 | the masked list has the same length, and each row is the masked row at that index |
| ListaInventario.VisibleItems | src/app/lista-inventario/page.tsx:25-30 | admins get the list unchanged; otherwise length and every other column are kept, and each count is kept iff its recorded counter is the viewer, null otherwise |
| ListaInventario.GetInventoryAndUser | src/app/lista-inventario/page.tsx:8-37 | a thrown lookup gives the guest page; otherwise the real identity, empty items on a store error, and the filtered rows (null data as empty) on success |
| ListaInventario.VisibleItemsIdempotent | src/app/lista-inventario/page.tsx:26-30 | filtering twice equals filtering once |
| ListaInventario.VisibleItemsKeepsOrder | src/app/lista-inventario/page.tsx:14-30 | the newest-first order of the stored rows survives the filter |
| ListaInventario.PageHidesForeignCounts | src/app/lista-inventario/page.tsx:20-35 | for any lookups, a non-admin page never carries a count recorded by somebody else |
| ListaInventario.PageShowsOwnCounts | src/app/lista-inventario/page.tsx:26-30 | a non-admin page carries every count its own user recorded |
| ListaInventario.SignedInCounterSeesOwnCounts | src/app/lista-inventario/page.tsx:8-30 | from the session on: a signed-in non-admin with an email is shown under that email and sees a row's first count exactly when the row was counted under it |
| ListaInventario.ErrorFallbacks | src/app/lista-inventario/page.tsx:20-35 | a store error keeps the identity with no rows; a throw gives the guest identity with no rows |
| RoleFormat.Upper | src/app/page.tsx:14 | ASCII upper-casing maps a–z to A–Z, keeps every other character and never makes an underscore |
| RoleFormat.Capitalize | src/app/page.tsx:14 | definition of the map callback: first character upper-cased, the rest kept (characterised by CapitalizeAll and RoleDisplayCharwise) |
| RoleFormat.Join | src/app/page.tsx:15 | definition of `join`: the pieces with the separator between them (characterised by JoinSplit) |
| RoleFormat.RoleDisplay | src/app/page.tsx:12-15 | defines the label as split on "_", capitalise each piece, join with " " (characterised by RoleDisplayCharwise and RoleDisplayWords) |
| RoleFormat.Split | src/app/page.tsx:13 | splitting gives at least one piece and no piece contains the separator |
| RoleFormat.CapitalizeAll | src/app/page.tsx:14 | the map keeps the number of words and capitalises each one |
| RoleFormat.JoinSplit | src/app/page.tsx:13-15 | joining the pieces with the separator gives the name back |
| RoleFormat.SplitCount | src/app/page.tsx:13 | there is one piece more than there are underscores |
| RoleFormat.RoleDisplayIsDisplayFrom | src/app/lista-inventario/page.tsx:43-46 | the split/map/join chain equals a left-to-right character reading |
| RoleFormat.SplitMatchesDisplayFrom | src/app/page.tsx:13-14 | the first piece (capitalised or not) followed by the remaining pieces each after a space and capitalised is the character reading |
| RoleFormat.RoleDisplayCharwise | src/app/page.tsx:12-15 | the label has the name's length; each underscore becomes a space, each word's first character is upper-cased, all else is kept |
| RoleFormat.RoleDisplayHasNoUnderscore | src/app/page.tsx:12-15 | the label contains no underscore |
| RoleFormat.RoleDisplayWords | src/app/page.tsx:12-15 | word count is underscores plus one; the label has a space exactly where the name has an underscore or a space |
| RoleFormat.OneWordLabel | src/app/page.tsx:12-15 | a name without underscore is shown capitalised |
| RoleFormat.TwoWordsLabel | src/app/lista-inventario/page.tsx:43-46 | "a_b" is shown as capitalised a, a space, capitalised b |
| RoleFormat.ViewerLabel | src/app/page.tsx:12-15 | "viewer" is shown as "Viewer" |
| RoleFormat.AdminLabel | src/app/page.tsx:12-15 | "admin" is shown as "Admin" |
| RoleFormat.SuperAdminLabel | src/app/lista-inventario/page.tsx:43-46 | "super_admin" is shown as "Super Admin" |
| RoleFormat.EmptyWordLabel | src/app/page.tsx:12-15 | "a__b" is shown as "A  B": the empty word stays |
| InventoryRoute.Get | src/app/api/inventory/route.ts:7-24 | status 200 exactly on data, with the data as body; a store error gives 500 with its message; a throw gives 500 "Error fetching inventory" |
| InventoryRoute.RowFor | src/app/api/inventory/route.ts:40-51 | the three fields are copied; all three attributions are "Admin"; confirmado_por is "Admin" iff confirmacion is truthy, else null; confirmacion falls back to false |
| InventoryRoute.HasRequiredFields | src/app/api/inventory/route.ts:33 | defines the field check: tag and location truthy, a count present even if null (BodyRequired, ServerCountRule) |
| JsValues.Prop | src/app/api/inventory/route.ts:31 | property access on a parsed body: a value exactly when the body is an object with that key, and then the key's value |
| InventoryRoute.BodyRequired | src/app/api/inventory/route.ts:33-38 | a body with text fields passes the field check iff both texts are non-empty, whatever the count |
| InventoryRoute.Post | src/app/api/inventory/route.ts:26-63 | an insert happens iff the body parsed to a non-null value with both texts truthy and a count present; unparsable or null bodies give 500; missing fields give 400; the insert's outcome gives 201, or 500 with the message or the fixed text; status is always 201, 400 or 500 |
| InventoryRoute.ServerCountRule | src/app/api/inventory/route.ts:33-38 | counts of 0 and null are accepted and inserted; an empty tag, an empty location or an absent count get 400 with no insert |
| InventoryRoute.StampsAreFixed | src/app/api/inventory/route.ts:5 | whatever the body claims as counter, the row is attributed to "Admin" three times |
| InventoryRoute.NonObjectBodyIsMissingFields | src/app/api/inventory/route.ts:31-38 | a parsed body that is not an object has no fields and gets 400 |
| SearchRoute.Search | src/app/api/inventory/search/route.ts:6-61 | no user gives 401; then a missing or blank q gives 400; upstream is called iff both pass and a session exists; a non-ok answer relays its status when a JSON response can carry it (200-599, not 204, 205 or 304) and gives 500 otherwise; an ok answer relays its JSON; anything thrown gives 500 |
| SearchRoute.QueryMissing | src/app/api/inventory/search/route.ts:24 | defines the refused query: absent, empty, or empty once trimmed (characterised by QueryMissingIff) |
| SearchRoute.QueryMissingIff | src/app/api/inventory/search/route.ts:24 | q is refused iff absent or without a visible character |
| SearchRoute.CallsUpstreamIff | src/app/api/inventory/search/route.ts:10-41 | the upstream call happens exactly for an authenticated, non-blank query with a session, carrying q, the limit and the token |
| SearchRoute.UnauthorizedBeforeBadQuery | src/app/api/inventory/search/route.ts:12-29 | an unauthenticated request gets 401 even when its query would get 400 |
| SearchRoute.LimitDefault | src/app/api/inventory/search/route.ts:22 | an absent or empty limit becomes "50"; any other limit is passed on |
| SearchRoute.SearchStatuses | src/app/api/inventory/search/route.ts:12-60 | the status is 401, 400, 500, 200 or the upstream's own non-ok status that a JSON response can carry; it always lies in 200-599 and is never 304 |
| SearchRoute.UnrelayableStatuses | src/app/api/inventory/search/route.ts:43-59 | an upstream 304, 199 or 600 ends as 500 through the catch; a 404 is relayed as 404 |
| Http.IsOk | src/app/api/inventory/search/route.ts:43 | definition of `response.ok`: a status in 200-299 (used by Search and SearchStatuses) |
| Http.CarriesJson | src/app/api/inventory/search/route.ts:46-49 | definition of the statuses a JSON response can be built with: 200-599 except 204, 205 and 304 (characterised by UnrelayableStatuses) |
| InventoryListClient.ThrownMessage | src/components/inventory/InventoryListClient.tsx:28-31 | only a non-ok or failed request throws; its message is the server's error text or the fallback |
| JsValues.StrOr | src/components/inventory/InventoryListClient.tsx:30 | the thrown text is the error field or else the fallback; the fallback is used iff the text is absent, empty or the fallback itself |
| InventoryListClient.ReplaceById | src/components/inventory/InventoryListClient.tsx:34-36 | same length; each row with the id is the server record, every other row is unchanged in place |
| InventoryListClient.RemoveById | src/components/inventory/InventoryListClient.tsx:50 | no longer; every remaining row was there and has another id; every other row keeps its multiplicity |
| InventoryListClient.FindById | src/components/inventory/InventoryListClient.tsx:55 | none exactly when no row has the id; a found row has the id and is in the list |
| InventoryListClient.ToggleBody | src/components/inventory/InventoryListClient.tsx:58-60 | the PATCH carries only confirmado_por: "pending" when ticked, null when cleared |
| InventoryListClient.ItemList.constructor | src/components/inventory/InventoryListClient.tsx:17 | the store starts with the initial rows |
| InventoryListClient.ItemList.HandleUpdate | src/components/inventory/InventoryListClient.tsx:19-38 | sends the PATCH; success replaces the rows by id; failure throws its message and changes nothing |
| InventoryListClient.ItemList.HandleDelete | src/components/inventory/InventoryListClient.tsx:40-52 | sends the DELETE; success removes the rows by id; failure throws and changes nothing |
| InventoryListClient.ItemList.HandleToggleVerified | src/components/inventory/InventoryListClient.tsx:54-61 | an unknown id sends nothing and changes nothing; otherwise it is the update with the toggle body |
| InventoryListClient.ReplaceKeepsOthers | src/components/inventory/InventoryListClient.tsx:35 | a row with another id is the same after an update |
| InventoryListClient.AbsentIdIsNoOp | src/components/inventory/InventoryListClient.tsx:35-50 | updating or deleting an id nobody has changes nothing |
| InventoryListClient.UpdateAndDeleteIdempotent | src/components/inventory/InventoryListClient.tsx:35-50 | repeating a successful update or delete changes nothing more |
| InventoryListClient.RemoveByIdAppend | src/components/inventory/InventoryListClient.tsx:50 | delete distributes over concatenation, so the rest keep their order |
| InventoryListClient.DeleteRemovesExactlyThatId | src/components/inventory/InventoryListClient.tsx:50 | after a delete no row has the id and every row with another id is still there |
| InventoryListClient.FindByIdIsFirst | src/components/inventory/InventoryListClient.tsx:55 | the found row is the first with that id |
| InventoryTable.CellOf | src/components/inventory/InventoryTable.tsx:173-176 | a count badge shows the number, or the dash for null |
| InventoryTable.HasCountMismatch | src/components/inventory/InventoryTable.tsx:147-148 | defines the mismatch: both counts present and different (MismatchNeedsBothCounts) |
| InventoryTable.RowHighlighted | src/components/inventory/InventoryTable.tsx:153-156 | the row is red exactly on a count mismatch |
| InventoryTable.ShowsSecondCounter | src/components/inventory/InventoryTable.tsx:254 | the second counter line shows exactly for a non-empty contado_por_2 |
| InventoryTable.IsCreator | src/components/inventory/InventoryTable.tsx:345 | the dialog's creator flag: the row's contado_por is the current user's email (CreatorSeesFirstCount) |
| InventoryTable.DeleteDisabled | src/components/inventory/InventoryTable.tsx:292-293 | a row's delete button is disabled exactly when the single deletingId slot holds its id; with overlapping deletes that is not the same as its delete running (OverlappingDeletes) |
| InventoryTable.CountDisplayFor | src/components/inventory/InventoryTable.tsx:170-196 | admins get both badges, each a dash when null, plus the mismatch badge exactly on a mismatch; others get the first count if present, else the second, else the dash |
| InventoryTable.VerifyCellFor | src/components/inventory/InventoryTable.tsx:199-232 | a spinner iff the row is in flight; otherwise a checkbox ticked iff confirmado_por is non-empty and disabled iff the user cannot verify |
| InventoryTable.Without | src/components/inventory/InventoryTable.tsx:65 | the id is gone, every other id stays, and no duplicates appear |
| InventoryTable.TableState.constructor | src/components/inventory/InventoryTable.tsx:26-28 | nothing is being edited, deleted or toggled |
| InventoryTable.TableState.BeginVerifyToggle | src/components/inventory/InventoryTable.tsx:58-61 | an id already in flight is refused; otherwise it is appended once |
| InventoryTable.TableState.EndVerifyToggle | src/components/inventory/InventoryTable.tsx:64-66 | exactly that id leaves the in-flight list |
| InventoryTable.TableState.HandleVerifyToggle | src/components/inventory/InventoryTable.tsx:58-67 | a toggle of an in-flight id sends nothing; otherwise the store's toggle runs (PATCH with the toggle body, replace on success); a failed reply leaves the rows as they were; the in-flight list ends as it began, without duplicates |
| InventoryTable.TableState.BeginDelete | src/components/inventory/InventoryTable.tsx:41-42 | a confirmed delete puts its id in the one slot, replacing any other; a declined one changes nothing |
| InventoryTable.TableState.EndDelete | src/components/inventory/InventoryTable.tsx:43-47 | the store's DELETE runs (removes on success, keeps on failure, its message thrown) and the slot is emptied whichever id it holds |
| InventoryTable.TableState.HandleDelete | src/components/inventory/InventoryTable.tsx:40-49 | one delete with no other in between: a declined confirmation does nothing; otherwise the DELETE is sent and its thrown message is the store's (none on success); the rows go on success and stay on failure; the button is enabled again either way |
| InventoryTable.OverlappingDeletes | src/components/inventory/InventoryTable.tsx:40-49 | with deletes of rows a and b overlapping, a's button is disabled at first, enabled again once b starts, and b's button is enabled again when a finishes while b still runs |
| InventoryTable.TableState.OpenEdit | src/components/inventory/InventoryTable.tsx:278 | the row becomes the one being edited |
| InventoryTable.TableState.CloseEdit | src/components/inventory/InventoryTable.tsx:346 | nothing is being edited |
| InventoryTable.TableState.HandleSaveEdit | src/components/inventory/InventoryTable.tsx:51-56 | saves the dialog as an update of the edited row; a failed reply leaves the rows as they were; the dialog closes only when nothing was thrown and stays open on failure |
| InventoryTable.TableState.SaveFromDialog | src/components/inventory/InventoryTable.tsx:51-56 | the dialog's submit through the table: the PATCH carries the dialog's serialised form for the edited row; success replaces the rows, closes the dialog and leaves no error; failure keeps rows and dialog and shows the thrown message; saving ends |
| InventoryTable.WithoutAppended | src/components/inventory/InventoryTable.tsx:61-65 | adding a new id and removing it gives the in-flight list back |
| InventoryTable.WithoutKeepsOrder | src/components/inventory/InventoryTable.tsx:65 | removing one id keeps every other in-flight id in its place |
| InventoryTable.MismatchNeedsBothCounts | src/components/inventory/InventoryTable.tsx:147-148 | a null count never mismatches, and the mismatch is symmetric in the two counts |
| InventoryTable.NonAdminSeesOnlyOwnCount | src/components/inventory/InventoryTable.tsx:184-196 | on the list page a non-admin's badge shows only a count that viewer recorded, and their row is red only if they recorded both |
| InventoryTable.CreatorSeesFirstCount | src/components/inventory/InventoryTable.tsx:184-187 | the creator of a row sees its first count |
| InventoryTable.DualCountScenario | src/components/inventory/InventoryTable.tsx:147-196 | with counts 10 (alice) and 9 (bob), each counter sees only their own number and the admin sees both and the mismatch |
| InventoryTable.VerifyCellAfterToggle | src/components/inventory/InventoryTable.tsx:199-228 | the spinner shows while the row is in flight, and the checkbox returns afterwards |
| InventoryForm.WithInput | src/components/inventory/InventoryForm.tsx:21-27 | only the named field changes; the count becomes parseInt or 0 |
| InventoryForm.IsFormValid | src/components/inventory/InventoryForm.tsx:72-75 | defines validity: both texts non-empty after trim and a positive count (IsFormValidIff) |
| InventoryForm.SubmitDisabled | src/components/inventory/InventoryForm.tsx:188 | the submit button is disabled while the form is invalid or a submission runs (InitialFormInvalid) |
| InventoryForm.FormJson | src/components/inventory/InventoryForm.tsx:51 | the posted body holds exactly the three fields as typed |
| InventoryForm.FormJsonRequired | src/app/api/inventory/route.ts:33-38 | the posted form passes the server's field check iff tag and location are non-empty |
| InventoryForm.FormRow | src/app/api/inventory/route.ts:40-51 | a form with non-empty texts is inserted as its three values, confirmacion false, three "Admin" stamps and no verifier |
| InventoryForm.CreateForm.constructor | src/components/inventory/InventoryForm.tsx:8-19 | the form starts empty with count 0, not submitting, no banner and no error |
| InventoryForm.CreateForm.HandleChange | src/components/inventory/InventoryForm.tsx:21-27 | the form becomes WithInput of the old form; the flags are unchanged |
| InventoryForm.CreateForm.HandleEtiquetadoChange | src/components/inventory/InventoryForm.tsx:29-37 | only the tag changes |
| InventoryForm.CreateForm.BeginSubmit | src/components/inventory/InventoryForm.tsx:39-51 | submitting, no banner, no error; the body is the current form |
| InventoryForm.CreateForm.FinishSubmit | src/components/inventory/InventoryForm.tsx:54-70 | success resets the form and shows the banner; failure keeps the form and records the server's message, the fallback or the thrown message; submitting ends |
| InventoryForm.CreateForm.SuccessTimerExpired | src/components/inventory/InventoryForm.tsx:64 | the banner goes, nothing else changes |
| InventoryForm.InitialFormInvalid | src/components/inventory/InventoryForm.tsx:8-12 | the initial form is invalid and its submit button disabled |
| InventoryForm.IsFormValidIff | src/components/inventory/InventoryForm.tsx:72-75 | valid iff both texts have a non-whitespace character and the count is positive |
| InventoryForm.CountInputReadsBack | src/components/inventory/InventoryForm.tsx:25 | typing the digits of n stores n; clearing the box stores 0, which is invalid |
| InventoryForm.ClientValidIsServerValid | src/app/api/inventory/route.ts:33-51 | every form the client accepts is inserted by the server with the typed values, no verifier and confirmacion false |
| InventoryForm.ServerLaxerThanClient | src/app/api/inventory/route.ts:33 | a zero count and a blank tag are refused by the client but inserted by the server |
| JsValues.TrimEmptyIff | src/components/inventory/InventoryForm.tsx:73-74 | trim gives "" iff the text has no non-whitespace character |
| JsValues.Truthy | src/app/api/inventory/route.ts:33-46 | JavaScript truthiness of a JSON value: null, false, 0 and "" are falsy, everything else truthy |
| JsValues.Trim | src/components/inventory/InventoryForm.tsx:73-74 | `trim`: whitespace removed at both ends (TrimEmptyIff) |
| JsValues.ParseInt | src/components/inventory/InventoryForm.tsx:25 | `parseInt` without radix: leading whitespace, optional sign, longest digit run, NaN when there is none (ParseIntDecimal) |
| JsValues.NumberInputValue | src/components/inventory/InventoryForm.tsx:25 | the value a number input stores: the parsed number, or 0 when parseInt gives NaN (CountInputReadsBack, NumberInputReadsBack) |
| JsValues.NumberInputReadsBack | src/components/inventory/InventoryForm.tsx:25 | parseInt of a rendered natural reads it back, and "" gives 0 |
| JsValues.ParseIntDecimal | src/components/inventory/EditInventoryModal.tsx:32 | a decimal rendering followed by a non-digit parses to its value, and with a minus sign to its negation |
| EditInventoryModal.InitialEditForm | src/components/inventory/EditInventoryModal.tsx:19-24 | the dialog starts from the row's tag, location and first count, with the confirmation flag undefined |
| EditInventoryModal.WithInput | src/components/inventory/EditInventoryModal.tsx:28-34 | the checkbox stores checked, the number box parseInt or 0, the text box the text; nothing else changes |
| EditInventoryModal.IsFormValid | src/components/inventory/EditInventoryModal.tsx:60-63 | the create form's rule, with a null count invalid (SameRuleAsCreateForm) |
| EditInventoryModal.SaveDisabled | src/components/inventory/EditInventoryModal.tsx:190 | the save button is disabled while the form is invalid or a save runs |
| EditInventoryModal.EditJson | src/components/inventory/EditInventoryModal.tsx:52 | the PATCH body has exactly the keys etiquetado, ubicacion and unidades, plus confirmacion once it is set; the texts are sent as typed, a null count as null, and confirmacion as its boolean |
| EditInventoryModal.EditModal.constructor | src/components/inventory/EditInventoryModal.tsx:19-26 | the form is the row's initial form, not saving, no error |
| EditInventoryModal.EditModal.HandleChange | src/components/inventory/EditInventoryModal.tsx:28-34 | the form becomes WithInput of the old form |
| EditInventoryModal.EditModal.HandleEtiquetadoChange | src/components/inventory/EditInventoryModal.tsx:36-44 | only the tag changes |
| EditInventoryModal.EditModal.BeginSubmit | src/components/inventory/EditInventoryModal.tsx:46-52 | saving, no error, the form handed over as it is |
| EditInventoryModal.EditModal.FinishSubmit | src/components/inventory/EditInventoryModal.tsx:51-58 | a failure records its message or "Error al guardar"; the form is kept and saving ends either way |
| EditInventoryModal.SameRuleAsCreateForm | src/components/inventory/EditInventoryModal.tsx:60-63 | with a count, the rule is the create form's; a null count is never valid |
| EditInventoryModal.InitialValidity | src/components/inventory/EditInventoryModal.tsx:19-24 | a row with a null or zero count opens an invalid dialog; visible texts and a positive count open a valid one |
| EditInventoryModal.UntouchedFlagIsNotSent | src/components/inventory/EditInventoryModal.tsx:23 | an untouched dialog sends no confirmacion; ticking the box sends true |
| EtiquetadoSearch.NextIndex | src/components/inventory/EtiquetadoSearch.tsx:137-142 | ArrowDown goes one down below the last entry and wraps to 0 otherwise, landing in range from any highlight from -1 up |
| EtiquetadoSearch.PrevIndex | src/components/inventory/EtiquetadoSearch.tsx:143-148 | ArrowUp goes one up above the first entry and wraps to the last otherwise, landing in range |
| EtiquetadoSearch.ArrowKeysInverse | src/components/inventory/EtiquetadoSearch.tsx:137-148 | on a highlighted entry ArrowUp undoes ArrowDown and back |
| EtiquetadoSearch.DownPressesSplit | src/components/inventory/EtiquetadoSearch.tsx:139-141 | a + b presses of ArrowDown are a presses then b presses |
| EtiquetadoSearch.DownPressesNoWrap | src/components/inventory/EtiquetadoSearch.tsx:140 | below the last entry, k presses move down by k |
| EtiquetadoSearch.DownPressesCycle | src/components/inventory/EtiquetadoSearch.tsx:137-142 | n presses of ArrowDown on n entries return to the starting entry |
| EtiquetadoSearch.EffectRunFor | src/components/inventory/EtiquetadoSearch.tsx:55-70 | the run is suppressed iff the user has not typed or just selected; too short iff under 2 characters; debounced otherwise |
| EtiquetadoSearch.SearchWidget.constructor | src/components/inventory/EtiquetadoSearch.tsx:30-40 | closed, no results, not loading, no error, highlight -1, nothing typed or pending |
| EtiquetadoSearch.SearchWidget.ValueChanged | src/components/inventory/EtiquetadoSearch.tsx:55-111 | a new value cancels the timer and aborts the live request, then is suppressed (flag cleared), cleared (too short) or debounced (loading, timer armed) |
| EtiquetadoSearch.SearchWidget.Type | src/components/inventory/EtiquetadoSearch.tsx:113-119 | typing marks the user as typing and re-runs the effect for the new text: an unchanged text changes nothing else; after a selection the run is suppressed with list and error kept; a short text clears list and error; a long one arms the timer with the spinner on; the highlight never moves |
| EtiquetadoSearch.SearchWidget.Select | src/components/inventory/EtiquetadoSearch.tsx:121-130 | the list closes and empties and the value becomes the code; the resulting run is suppressed and the flag cleared, but the flag stays set when the code equals the value; the typed mark, error, highlight and spinner are kept |
| EtiquetadoSearch.SearchWidget.KeyDown | src/components/inventory/EtiquetadoSearch.tsx:132-161 | keys are ignored while closed or empty; arrows move the highlight in range and Escape closes, all other state kept; Enter on an in-range highlight does what Select does with that entry, and otherwise nothing |
| EtiquetadoSearch.SearchWidget.Focus | src/components/inventory/EtiquetadoSearch.tsx:163-167 | focus opens the list iff the value has 2 characters and there are results; nothing else changes |
| EtiquetadoSearch.SearchWidget.Hover | src/components/inventory/EtiquetadoSearch.tsx:234 | hovering entry i highlights it; nothing else changes |
| EtiquetadoSearch.SearchWidget.MouseDown | src/components/inventory/EtiquetadoSearch.tsx:43-52 | a press outside the widget closes the list and changes nothing else; a press inside changes nothing |
| EtiquetadoSearch.SearchWidget.TimerFired | src/components/inventory/EtiquetadoSearch.tsx:72-84 | the request for the current value with limit "20" goes out and becomes the live one |
| EtiquetadoSearch.SearchWidget.Completed | src/components/inventory/EtiquetadoSearch.tsx:86-102 | ok opens the list with the results (none as empty) and highlight -1; not ok or a failure sets the message and clears results with open state and highlight kept; loading ends; timer, aborts and flags kept |
| EtiquetadoSearch.SearchWidget.AbortDelivered | src/components/inventory/EtiquetadoSearch.tsx:95-101 | an aborted request leaves results and error alone, and its finally ends loading |
| EtiquetadoSearch.StuckSpinner | src/components/inventory/EtiquetadoSearch.tsx:62-70 | typing "ab" then "a" leaves the spinner on with nothing pending |
| EtiquetadoSearch.SelectWhileDebouncing | src/components/inventory/EtiquetadoSearch.tsx:57-70 | selecting while a newer search is armed leaves the spinner on with nothing pending |
| EtiquetadoSearch.SpinnerOffDuringSearch | src/components/inventory/EtiquetadoSearch.tsx:95-108 | after an abort is delivered the next request runs with no spinner |
| EtiquetadoSearch.SameCodeSelect | src/components/inventory/EtiquetadoSearch.tsx:57-60 | after the stale flag of a same-code selection, the next keystroke arms no search and clears the flag |
| EtiquetadoSearch.BlankQueryIsRefused | src/app/api/inventory/search/route.ts:24-29 | a value of two blanks passes the widget's length gate but gets 400 from the proxy |

## Left out

- Supabase, `fetch`, `AbortController`, `window.confirm`, `router.refresh` and
  `console.error` are outside code. Their results are inputs of the operations
  that use them.
- The 300 ms debounce and the 3 s success timer. The timers are discrete
  events, and time itself is not modelled.
- The input's `blur` after a selection. Focus is not part of the widget's
  state; only `handleFocus` is modelled. The outside-click listener is
  modelled as `MouseDown`.
- `formatDate` and the rest of the JSX. These are locale formatting and
  presentation; only the choices that rendering depends on are modelled.
- The `PATCH` and `DELETE` handlers of `/api/inventory/{id}` and their
  count-routing policy, because src/app/api/inventory/[id]/route.ts is not part
  of this model. The row store's replies to those requests are inputs.
- JavaScript numbers are integers here. Counts are whole numbers, and fractions,
  NaN and infinities are not modelled.
- `parseInt` is modelled for decimal text only: whitespace, a sign, then digits.
  Number inputs do not hold hexadecimal or exponent forms.
- `toUpperCase` is ASCII only, with no Unicode case mapping. String lengths
  count Unicode scalar values, where JavaScript counts UTF-16 units; the two
  differ only outside the Basic Multilingual Plane.
- `encodeURIComponent` on the proxied query. The model passes the query as
  text.
- The store sorting rows by `created_at` is an input property.
  `ListaInventario.VisibleItemsKeepsOrder` shows that the filter keeps that
  order.
- The search proxy's reading of the upstream error text is left out, because
  its value is only logged, and so is that read failing, which would end in
  the catch as a 500.
- InventoryListClient.ThrownMessage: an `error` field that is truthy but not
  text is treated as absent, so the fallback is thrown where JavaScript would
  throw its `String(...)`. The `[id]` handlers send only text errors.
- InventoryForm.CreateForm.FinishSubmit: in the same way, a non-text `error`
  in a rejected reply is treated as absent and the fallback is shown. The
  create route sends only text errors.
- A reply whose body cannot be parsed is modelled as a thrown error with a
  message, whatever that message is.
- The rows the list page reads are taken to have no `confirmacion` column, as
  the row type declares. The legacy `POST` does insert one, and the page reads
  rows with `select('*')`. Under that assumption the edit dialog's flag starts
  undefined for every row. A row that carries the column would start the
  dialog with its stored value instead.
