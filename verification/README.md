# EcoSoft dashboard core, modelled in Dafny

EcoSoft is a Next.js administration dashboard. This project models the logic under its
screens and proves properties of that model. The modelled parts are:

- **Server authentication.** The users table and its queries, cookie-based session
  resolution with its admin check, and the login and register route handlers.
- **Client session.** The holder of the current user, the loading flag and one
  localStorage slot.
- **List tables.** The in-memory tables behind the dashboard pages (contacts, work zones,
  share history, meetings history, utilities history, users, products). Each has a search
  filter, an admin gate, a hard or soft delete, and an append or a replace-by-id.
- **New sale.** The item list of the sale dialog, with duplicate merging and the stock
  bound.
- **Form utilities.** The converter, compressor and scanner, the share form, and the
  meeting scheduler. This covers their schemas, file names built from ISO 8601 timestamps,
  the names joined for recipient lists, and records logged per recipient.
- **Small state machines.** The importer and uploader file lists, the multi-select
  control, the sidebar menus, and the meeting room.

Components whose fields change step by step are classes whose methods state the whole new
state. Pure computations are functions, with lemmas relating them. The model abstracts
the following:

- The MySQL table is a sequence of rows.
- bcrypt is a salted digest with a `Matches` relation.
- JSON text is either an encoded string-valued object or other text.
- Randomness, clocks, fresh ids, media outcomes and the browser's replies are parameters.
- An interval timer is a loop over the random steps of the ticks that fired.

Module layout: one module per source file, plus the shared helpers.

- `Wrappers`: Option and Result.
- `Text`: lowercase, `includes`, `split`/`join`, `substring`, `replace`, decimal text.
- `ListOps`: filter, remove by id, update where, replace by id.
- `Json`: the abstract JSON text.
- `Progress`: the capped progress interval.
- `FileKinds`: extensions and icon colours.
- `UploadList`: the importer's and uploader's file entries.
- `Directory`: id-to-name lookups and joins.
- `Search`: the list pages' search box over a row's searched fields.

## Model

| member | source | states |
|---|---|---|
| AuthDb.HashContract | lib/auth-db.ts:19-23 | a digest matches the password it was made from, whatever the salt, and no other password |
| AuthDb.Stripped | lib/auth-db.ts:25-27 | every column of the row but the password is kept unchanged |
| AuthDb.GetUserByEmail | lib/auth-db.ts:5-9 | null exactly when no row has the email; otherwise the first row carrying it |
| AuthDb.VerifyUserCredentials | lib/auth-db.ts:12-28 | a user comes back iff the email has a row and the password matches that row's digest, and it is the row without its password |
| AuthDb.CredentialFailureIsUniform | lib/auth-db.ts:15-23 | an unknown email and a wrong password both give null, so the caller cannot tell them apart |
| AuthDb.VerifiedUserIsRow | lib/auth-db.ts:25-27 | a successful check returns some row with that email, whose digest matches, minus the password |
| AuthDb.LookupFindsUniqueRow | lib/auth-db.ts:6-8 | with unique emails, the lookup of any row's email finds that very row |
| AuthDb.UsersTable.constructor | lib/auth-db.ts:42 | the table starts with the given rows and auto-increment counter, ids distinct and below the counter |
| AuthDb.UsersTable.RegisterUser | lib/auth-db.ts:31-57 | a taken email fails with "El email ya está en uso" and leaves the table alone; otherwise exactly one row is appended with the hashed password, the role defaulting to "user" and status "active", and the answer echoes it without the password; unique emails stay unique |
| AuthDb.UsersTable.UpdateUser | lib/auth-db.ts:60-78 | rows with the id get the four new columns and keep their digest; every other row is untouched; the arguments are echoed |
| AuthDb.UsersTable.DeleteUser | lib/auth-db.ts:81-84 | exactly the rows with the id are removed, the rest keep their order, and the answer is true |
| AuthDb.UsersTable.GetAllUsers | lib/auth-db.ts:87-89 | one public user per row, in table order, never carrying the password |
| AuthDb.RegisterTwice | lib/auth-db.ts:33-36 | registering the same email twice fails the second time with the duplicate error; a first success has role "user" and status "active" |
| AuthSession.GetSession | lib/auth.ts:6-37 | no cookie or unparseable JSON gives null; a session exists iff the token parses, the query runs and a row has the token's email; its fields are the token's with "0", "Usuario", "usuario@example.com" and "user" as the defaults of falsy fields |
| AuthSession.SessionFieldsNonEmpty | lib/auth.ts:27-32 | every field of a resolved session is a nonempty string |
| AuthSession.SessionIgnoresRowValues | lib/auth.ts:20-32 | two tables that both hold the email give the same session: the row's values are never used |
| AuthSession.CheckAdminAccess | lib/auth.ts:39-47 | false without a session; true iff the session's role is exactly "admin" |
| AuthSession.AdminIffTokenRole | lib/auth.ts:31-46 | with the row present, admin access holds iff the token's own role field is "admin"; a token without a role is not admin |
| AuthSession.TokenRoleOverridesRow | lib/auth.ts:20-31 | a token naming a registered email with role "admin" passes the admin check even when that row's role is "user" |
| LoginRoute.MatchCredentials | app/api/auth/login/route.ts:9-27 | the admin pair yields the admin user, the user pair the regular user, anything else nothing; matching is exact equality of both fields |
| LoginRoute.WrongPasswordRefused | app/api/auth/login/route.ts:11-31 | a known email with any other password is refused |
| LoginRoute.MatchDependsOnlyOnCredentials | app/api/auth/login/route.ts:6-27 | two requests agreeing on email and password get the same answer, whatever else they hold |
| LoginRoute.CookieStore.constructor | app/api/auth/login/route.ts:34 | the cookie jar starts with the given user cookie |
| LoginRoute.CookieStore.Post | app/api/auth/login/route.ts:4-48 | a match answers 200 with the user and sets the `user` cookie to its JSON, for one day on path "/", httpOnly and sameSite strict, secure only in production; a miss answers 401 "Credenciales incorrectas" and an unreadable body 500, both leaving the cookie alone |
| LoginRoute.CookieCarriesResponse | app/api/auth/login/route.ts:35-43 | parsing the cookie set on success gives back exactly the response body |
| LoginRoute.LoginStillNeedsRow | lib/auth.ts:20-24 | the session built from the login cookie exists iff the users table has a row with the literal email |
| LoginRoute.AdminLoginGrantsAccessIffRow | lib/auth.ts:39-46 | after an admin login, admin access holds exactly when a row for admin@ecosoft.com exists |
| RegisterRoute.Respond | app/api/auth/register/route.ts:8-20 | success answers 200 with the created user; the duplicate-email error answers 409 with the same message; any other error answers 500 "Error interno del servidor" |
| RegisterRoute.StatusDeterminesOutcomeKind | app/api/auth/register/route.ts:15-19 | equal statuses mean the same outcome kind |
| RegisterRoute.Post | app/api/auth/register/route.ts:4-21 | a body with name, email and password and an email not yet in the table answers 200 with the new user (next id, role "user", status "active") and appends its row; a known email answers 409; a body that does not parse or lacks a field answers 500; failures leave the table unchanged |
| AuthContext.ReadReply | context/auth-context.tsx:53-58 | an ok reply yields its body; a refusal throws the body's message, or the fallback when it is missing or empty; a network error or a non-JSON body throws |
| AuthContext.AuthProvider.constructor | context/auth-context.tsx:23-24 | no user, loading, and children not rendered |
| AuthContext.AuthProvider.Init | context/auth-context.tsx:27-41 | a stored entry that parses becomes the user; an unparseable one is removed and the user stays null; loading ends and children render in every case |
| AuthContext.AuthProvider.Login | context/auth-context.tsx:43-71 | success stores the JSON of the body and makes it the user; a failure throws the server's message and changes neither |
| AuthContext.AuthProvider.Logout | context/auth-context.tsx:73-92 | once the request answers, whatever its status, the user and stored entry are cleared and the router goes to /login; a fetch that throws changes nothing |
| AuthContext.AuthProvider.Register | context/auth-context.tsx:94-114 | reads the reply with its own fallback message, a non-ok reply throws, and no state changes |
| AuthContext.UseAuth | context/auth-context.tsx:119-125 | outside a provider it throws, inside it returns the provider |
| AuthContext.LoginRefusalMessage | context/auth-context.tsx:53-56 | the route's 401 reaches the caller as "Credenciales incorrectas" |
| AuthContext.LoginThenReload | context/auth-context.tsx:58-64 | a successful login's user is stored as JSON that the next mount parses back to the same user |
| AuthContext.AdminLoginIsAdmin | components/dashboard/sidebar.tsx:33 | the admin login's user passes the `role === "admin"` test, the regular user and no user do not |
| ContactsList.FilteredContacts | components/contactos/contacts-list.tsx:120-126 | a contact is listed iff its name or e-mail contains the term ignoring case or its phone contains it as typed, and the zone filter is "Todas" or its own zone; nothing else is listed |
| ContactsList.FilteredInOrder | components/contactos/contacts-list.tsx:120-126 | the filtered list keeps the table's order |
| ContactsList.EverythingShownAtFirst | components/contactos/contacts-list.tsx:110-126 | with the initial empty term and "Todas", the list is the whole table |
| ContactsList.ZoneHidesOthers | components/contactos/contacts-list.tsx:124-125 | once one zone is chosen, no contact of another zone is listed, whatever the term |
| ContactsList.ContactsPage.constructor | components/contactos/contacts-list.tsx:107-112 | the page starts with the given contacts, an empty search, zone "Todas", closed dialogs and no selection |
| ContactsList.ContactsPage.HandleAddContact | components/contactos/contacts-list.tsx:136-147 | a non-admin is refused and nothing changes; an admin gets the dialog opened with the table untouched |
| ContactsList.ContactsPage.HandleDeleteClick | components/contactos/contacts-list.tsx:149-161 | a non-admin is refused and nothing changes; an admin selects the id and opens the confirmation |
| ContactsList.ContactsPage.ConfirmDelete | components/contactos/contacts-list.tsx:163-176 | without a selected id nothing happens; otherwise every contact with that id, and only those, is removed, and the selection and dialog are cleared |
| ContactsList.ContactsPage.HandleContactSaved | components/contactos/contacts-list.tsx:178-186 | exactly one contact is appended, with the form's fields, a fresh id and status "active", and the dialog closes |
| ContactsZones.InitialZones | components/contactos/contacts-zones.tsx:31-60 | the four starting zones, none with a blank name |
| ContactsZones.ZonesPage.constructor | components/contactos/contacts-zones.tsx:63-68 | the page starts with the four zones, empty form fields, closed dialogs and no selection, with no blank-named zone |
| ContactsZones.ZonesPage.HandleAddZone | components/contactos/contacts-zones.tsx:75-88 | a non-admin is refused and nothing changes; an admin gets cleared form fields and an open dialog |
| ContactsZones.ZonesPage.EditFields | components/contactos/contacts-zones.tsx:65-66 | typing sets the two form fields and nothing else |
| ContactsZones.ZonesPage.HandleDeleteClick | components/contactos/contacts-zones.tsx:90-102 | a non-admin is refused and nothing changes; an admin selects the id and opens the confirmation |
| ContactsZones.ZonesPage.ConfirmDelete | components/contactos/contacts-zones.tsx:104-117 | without a selected id nothing happens; otherwise exactly the zones with that id are removed and the selection clears; no blank-named zone appears |
| ContactsZones.ZonesPage.HandleSaveZone | components/contactos/contacts-zones.tsx:119-138 | saves iff the name is not blank once trimmed; a refusal changes nothing; a save appends one zone with the name as typed, no members, a fresh id and the time, and closes the dialog; no blank-named zone is ever listed |
| Search.Rows | components/compartir/share-history.tsx:102-107 | a row is listed iff one of its searched fields contains the term ignoring case, and only rows of the table are listed |
| Search.RowsKeepOrder | components/compartir/share-history.tsx:102-107 | the listed rows keep the table's order |
| ShareHistory.FilteredHistory | components/compartir/share-history.tsx:102-107 | an entry is listed iff its file name, sender or recipients contain the term ignoring case; nothing else is listed |
| ShareHistory.SoftDelete | components/compartir/share-history.tsx:127-132 | the history keeps its length; entries with the id get status "deleted" and keep every other field; all other entries are unchanged |
| ShareHistory.SoftDeleteIdempotent | components/compartir/share-history.tsx:127-132 | deleting the same id twice is the same as once |
| ShareHistory.SearchSurvivesSoftDelete | components/compartir/share-history.tsx:102-132 | searching after a delete gives the earlier search with the same entries marked deleted: a deleted entry stays listed |
| ShareHistory.NoDeleteAfterDelete | components/compartir/share-history.tsx:250-257 | once an entry is marked deleted its delete action is no longer offered, even to an admin |
| ShareHistory.SharePage.constructor | components/compartir/share-history.tsx:92-95 | the page starts with the given history, an empty search, a closed dialog and no selection |
| ShareHistory.SharePage.HandleDeleteClick | components/compartir/share-history.tsx:113-121 | a non-admin is refused and nothing changes; an admin selects the id and opens the confirmation |
| ShareHistory.SharePage.ConfirmDelete | components/compartir/share-history.tsx:127-132 | without a selected id nothing happens; otherwise the entries with it are marked deleted and the selection clears |
| MeetingsHistory.FilteredHistory | components/reuniones/meetings-history.tsx:89-94 | a meeting is listed iff its title, participants or creator contain the term ignoring case; nothing else is listed |
| MeetingsHistory.Remove | components/reuniones/meetings-history.tsx:114-117 | every meeting with the id goes, every other meeting stays |
| MeetingsHistory.RemoveKeepsOrder | components/reuniones/meetings-history.tsx:114-117 | the remaining meetings keep their order |
| MeetingsHistory.SearchAfterRemove | components/reuniones/meetings-history.tsx:89-117 | searching after a removal equals removing from the earlier search |
| MeetingsHistory.MeetingsPage.constructor | components/reuniones/meetings-history.tsx:79-82 | the page starts with the given history, an empty search, a closed dialog and no selection |
| MeetingsHistory.MeetingsPage.HandleDeleteClick | components/reuniones/meetings-history.tsx:100-108 | a non-admin is refused and nothing changes; an admin selects the id and opens the confirmation |
| MeetingsHistory.MeetingsPage.ConfirmDelete | components/reuniones/meetings-history.tsx:114-117 | without a selected id nothing happens; otherwise the meetings with it are removed and the selection clears |
| UtilitiesHistory.FilteredHistory | components/utilidades/utilities-history.tsx:119-124 | an operation is listed iff its output file or creator contains the term ignoring case and its kind is compression, conversion or scan; nothing else is listed |
| UtilitiesHistory.EmptySearchListsKnownKinds | components/utilidades/utilities-history.tsx:119-124 | with an empty search, an operation is listed iff its kind is one of the three |
| UtilitiesHistory.SoftDelete | components/utilidades/utilities-history.tsx:144-149 | the history keeps its length; operations with the id get status "deleted" and nothing else changes |
| UtilitiesHistory.SoftDeleteIdempotent | components/utilidades/utilities-history.tsx:144-149 | deleting the same id twice is the same as once |
| UtilitiesHistory.SearchSurvivesSoftDelete | components/utilidades/utilities-history.tsx:119-149 | searching after a delete gives the earlier search with those operations marked deleted |
| UtilitiesHistory.NoActionsAfterDelete | components/utilidades/utilities-history.tsx:324-345 | a deleted operation offers neither download nor delete |
| UtilitiesHistory.UtilitiesPage.constructor | components/utilidades/utilities-history.tsx:109-112 | the page starts with the given history, an empty search, a closed dialog and no selection |
| UtilitiesHistory.UtilitiesPage.HandleDeleteClick | components/utilidades/utilities-history.tsx:130-138 | a non-admin is refused and nothing changes; an admin selects the id and opens the confirmation |
| UtilitiesHistory.UtilitiesPage.ConfirmDelete | components/utilidades/utilities-history.tsx:144-149 | without a selected id nothing happens; otherwise those operations are marked deleted and the selection clears |
| UserTable.FilteredUsers | components/users/user-table.tsx:91-95 | a user is listed iff the name or e-mail contains the term ignoring case; nothing else is listed |
| UserTable.EmptySearchListsAll | components/users/user-table.tsx:86-95 | the initial empty search lists every user in order |
| UserTable.UsersPage.constructor | components/users/user-table.tsx:82-88 | the page starts with the given users, no selection, closed dialogs in view mode and an empty search |
| UserTable.UsersPage.Open | components/users/user-table.tsx:101-111 | viewing or editing selects the user, sets the mode and opens the dialog, with the table untouched |
| UserTable.UsersPage.HandleDeleteClick | components/users/user-table.tsx:113-116 | the id is remembered and the confirmation opens, with nothing else changed |
| UserTable.UsersPage.ConfirmDelete | components/users/user-table.tsx:118-131 | without a pending id nothing happens; otherwise exactly the users with it are removed and the confirmation closes |
| UserTable.UsersPage.HandleSave | components/users/user-table.tsx:133-135 | the user with the edited id is replaced in place by the dialog's five parsed fields, so the replaced row has no last-login or creation date and cannot be rendered; others stay, the length is kept, an unknown id changes nothing, and the dialog closes |
| UserTable.SavedRow | components/users/user-dialog.tsx:20-26 | the row handed back keeps id, name, e-mail, role and status and has neither date |
| ProductTable.ProductsPage.constructor | components/products/product-table.tsx:68-71 | the page starts with the given products, no selection and a closed dialog in view mode |
| ProductTable.ProductsPage.HandleEdit | components/products/product-table.tsx:73-77 | the product is selected in edit mode and the dialog opens, with the table untouched |
| ProductTable.ProductsPage.HandleDelete | components/products/product-table.tsx:79-82 | exactly the products with the id are removed, in order, with no confirmation step |
| ProductTable.ProductsPage.HandleSave | components/products/product-table.tsx:84-87 | the product with the edited id is replaced in place, others stay, the length is kept, an unknown id changes nothing, and the dialog closes |
| SaleCart.FindProduct | components/sales/sale-create-dialog.tsx:130-132 | the product found is a catalogue entry with that id; none is found iff no entry has it |
| SaleCart.FindIndex | components/sales/sale-create-dialog.tsx:101 | the first line with the product id, or -1 iff no line has it |
| SaleCart.AddToCart | components/sales/sale-create-dialog.tsx:70-124 | the refusals in the source's order (no product, quantity not positive, unknown product, more than the stock); a new product is appended as one line; a product already present has its line's quantity raised, and is refused with the stock when the sum would pass it; every add that passes all these checks is accepted |
| SaleCart.AddMerges | components/sales/sale-create-dialog.tsx:101-117 | a repeated product keeps the number of lines and raises only its own line |
| SaleCart.AddKeepsValid | components/sales/sale-create-dialog.tsx:70-124 | after an accepted add every line is still a catalogue product, once, with a quantity between 1 and its stock |
| SaleCart.RemoveAt | components/sales/sale-create-dialog.tsx:126-128 | removing an index in range drops exactly that line and keeps the others in order; an index out of range changes nothing |
| SaleCart.RemoveKeepsValid | components/sales/sale-create-dialog.tsx:126-128 | removal keeps the cart invariant |
| SaleCart.TotalNonNegative | components/sales/sale-create-dialog.tsx:134-139 | with non-negative quantities the total is non-negative |
| SaleCart.TotalAppend | components/sales/sale-create-dialog.tsx:134-139 | the total of two carts joined is the sum of their totals |
| SaleCart.TotalSingle | components/sales/sale-create-dialog.tsx:136-137 | one line totals its price times its quantity, or 0 for an unknown product |
| SaleCart.AddRaisesTotal | components/sales/sale-create-dialog.tsx:70-139 | an accepted add raises the total by exactly the product's price times the added quantity, merged or not |
| SaleCart.RemoveLowersTotal | components/sales/sale-create-dialog.tsx:126-139 | removing a line lowers the total by exactly that line's amount |
| SaleCart.TotalAround | components/sales/sale-create-dialog.tsx:134-139 | the total splits around any line |
| SaleCart.QuantityInput | components/sales/sale-create-dialog.tsx:200 | the quantity field is never 0: a parsed nonzero number is kept, and text that is not a number, or 0, gives 1 |
| SaleCart.ValidCartPassesSchema | components/sales/sale-create-dialog.tsx:32-40 | a cart that keeps its invariant passes the item part of the sale schema, so a form holding the cart needs only a customer of two characters |
| SaleCart.Cart.constructor | components/sales/sale-create-dialog.tsx:51-68 | the dialog starts with an empty cart, no product selected, quantity 1 and not saving, and the form with an empty customer and no items |
| SaleCart.Cart.AddItem | components/sales/sale-create-dialog.tsx:70-124 | an accepted add takes the new cart and resets the selection to "" and 1; a refusal changes nothing; the invariant holds |
| SaleCart.Cart.RemoveItem | components/sales/sale-create-dialog.tsx:126-128 | the cart loses the line at the index and keeps its invariant |
| SaleCart.Cart.SetQuantity | components/sales/sale-create-dialog.tsx:200 | the field takes the parsed number or 1, and the cart is untouched |
| SaleCart.Cart.TypeCustomer | components/sales/sale-create-dialog.tsx:177 | only the form's customer changes |
| SaleCart.Cart.ChooseProduct | components/sales/sale-create-dialog.tsx:184 | only the selected product changes |
| SaleCart.Cart.AddItemIntended | components/sales/sale-create-dialog.tsx:70-124 | as AddItem, and the form's items are then the cart |
| SaleCart.Cart.RemoveItemIntended | components/sales/sale-create-dialog.tsx:126-128 | as RemoveItem, and the form's items are then the cart |
| SaleCart.Cart.Submit | components/sales/sale-create-dialog.tsx:141-173 | submits iff the form's own customer and items pass the schema, with nothing changed otherwise; a sale empties the form and the cart, closes the dialog once and ends not saving |
| SaleCart.FillThenSubmit | components/sales/sale-create-dialog.tsx:57-68 | as written, after any run of typing, choosing, adding and removing, the button is enabled iff the cart has lines, yet the submit is refused |
| SaleCart.FillThenSubmitIntended | components/sales/sale-create-dialog.tsx:70-128 | with every cart change written into the form, after any run of actions a submit goes through iff the button is enabled and the customer has at least two characters |
| ConvertUtility.DetectFormat | components/utilidades/convert-utility.tsx:75-90 | the extension is kept when some category lists it, and "" otherwise |
| ConvertUtility.FirstCategory | components/utilidades/convert-utility.tsx:98-103 | the first category, in key order, that lists the format, or none iff no category does |
| ConvertUtility.CompatibleFormats | components/utilidades/convert-utility.tsx:93-110 | never offers the source format itself; an empty or unknown source offers nothing; a known source offers exactly the other formats of the first category that lists it, in that category's order |
| ConvertUtility.PdfIsADocument | components/utilidades/convert-utility.tsx:31-35 | since "document" comes first, a PDF converts to docx, txt, rtf and odt, and never to pptx |
| ConvertUtility.DetectedFormatHasTargets | components/utilidades/convert-utility.tsx:31-35 | every detectable format offers at least one target |
| ConvertUtility.OutputFilename | components/utilidades/convert-utility.tsx:139-140 | the name is the text before the first dot, or "archivo" when that is empty or no file is picked, then "_convertido." and the target |
| ConvertUtility.OutputFilenameOfStem | components/utilidades/convert-utility.tsx:139-140 | for a dot-free stem followed by a dot and anything, the name is stem + "_convertido." + target, and "archivo_convertido." + target for an empty stem |
| ConvertUtility.ConvertForm.constructor | components/utilidades/convert-utility.tsx:43-64 | no file, empty formats, quality "high", progress 0, no download, nothing logged |
| ConvertUtility.ConvertForm.HandleFileChange | components/utilidades/convert-utility.tsx:69-91 | an empty pick changes nothing; otherwise the first file is selected and the source format becomes its extension only when detected; the target is kept |
| ConvertUtility.ConvertForm.ChooseFromFormat | components/utilidades/convert-utility.tsx:237-241 | while not converting the source format is set, and the target is kept |
| ConvertUtility.ConvertForm.ChooseToFormat | components/utilidades/convert-utility.tsx:262-266 | the target is set only while its select is enabled and to a format it offers; otherwise nothing changes |
| ConvertUtility.ConvertForm.Convert | components/utilidades/convert-utility.tsx:113-187 | submits iff a file and both formats are set, with nothing changed otherwise; a submit names the file, offers and downloads it, logs one "conversion" record with the input, output, formats, quality, user and time, notifies the parent once, and ends not converting with progress equal to the sum of the steps of the ticks that fired, clamped at 100, so reaching 100 once enough 1-5 steps fire |
| ConvertUtility.SameFormatReachable | components/utilidades/convert-utility.tsx:69-91 | picking "informe.docx", choosing "pdf", then picking "datos.pdf" leaves a submittable form whose source and target are both "pdf" |
| MultiSelect.Unselect | components/ui/multi-select.tsx:35-37 | the item is gone, every other value stays, and nothing is added |
| MultiSelect.UnselectKeepsOrder | components/ui/multi-select.tsx:35-37 | what stays keeps its order |
| MultiSelect.WithoutOptionsNothingIsChosen | components/ui/multi-select.tsx:16-126 | without `options`, no run of clicks and removals adds a value, so an empty selection stays empty |
| MultiSelect.PicksAppendChosenValues | components/ui/multi-select.tsx:89-102 | with `options`, clicking enabled, distinct, unchosen items appends exactly their values, in click order |
| MultiSelect.IntendedPicksChooseAnyUsers | components/ui/multi-select.tsx:89-102 | with `options`, any list of distinct enabled items can be chosen from an empty selection, and the result is exactly that list |
| MultiSelect.Toggle | components/ui/multi-select.tsx:96-102 | a selected option is removed and an unselected one appended; the option is selected afterwards iff it was not before |
| MultiSelect.Choose | components/ui/multi-select.tsx:95-102 | a disabled option cannot be chosen; any other is toggled |
| MultiSelect.ToggleKeepsNoDuplicates | components/ui/multi-select.tsx:96-102 | toggling never creates a duplicate value |
| MultiSelect.ToggleTwiceUnselected | components/ui/multi-select.tsx:96-102 | choosing an unselected option twice restores the value exactly |
| MultiSelect.ToggleTwiceSelected | components/ui/multi-select.tsx:96-102 | choosing a selected option twice keeps the same set of values but moves it to the end |
| MultiSelect.Click | components/ui/multi-select.tsx:50 | a click flips the popover flag unless the control is disabled |
| MultiSelect.ClickTimes | components/ui/multi-select.tsx:50 | an enabled control is back to its state after an even number of clicks, and a disabled one never changes |
| MultiSelect.DisabledNeverOpens | components/ui/multi-select.tsx:40-50 | a disabled control never shows its popover, however often it is clicked |
| MultiSelect.FindOption | components/ui/multi-select.tsx:55 | the option found carries the value; none is found iff no option has it |
| MultiSelect.BadgeLabel | components/ui/multi-select.tsx:55-58 | a badge shows the option's label when it has a nonempty one and the raw value otherwise |
| Progress.Tick | components/utilidades/convert-utility.tsx:121-129 | one tick from a value of at most 100 never passes 100 and never goes down; it gives 100 iff the sum reaches 100, and the plain sum below that |
| Progress.SumAtLeastCount | components/utilidades/convert-utility.tsx:122 | steps of at least one point sum to at least their number |
| Progress.Run | components/utilidades/convert-utility.tsx:120-131 | the interval stops at the first tick that reaches 100 and the value is the clamped sum of the ticks that ran, which is also the start plus the sum of all the steps given, clamped at 100; ticks left over mean it reached 100; with steps of at least one point, enough ticks always reach 100 |
| UploadList.Complete | components/importar/file-importer.tsx:79-94 | a finished entry keeps its id and name, has progress 100, status "success" iff the roll succeeded, and an error message exactly when it failed |
| UploadList.WithProgress | components/importar/file-importer.tsx:113 | entries with the id take the new progress and keep every other field; the rest are unchanged |
| UploadList.Completed | components/importar/file-importer.tsx:81-94 | entries with the id are completed; the rest are unchanged |
| UploadList.RunInterval | components/importar/file-importer.tsx:69-116 | other entries are never touched; the interval finishes at the first tick whose running sum reaches 100 and then completes the entry; unfinished, the entry shows the sum so far; no tick leaves the list as it was |
| UploadList.SumAtLeast | components/importar/file-importer.tsx:72 | steps of at least `least` points sum to at least `least` times their number, so twenty ticks of at least 5 always finish |
| UploadList.SuccessCount | components/importar/file-importer.tsx:101 | the count of succeeded files is at most the number of files, and equals it iff every file succeeded |
| UploadList.NewEntries | components/importar/file-importer.tsx:31-38 | one entry per picked file, in order, with its drawn id, progress 0, the given status and no error |
| FileImporter.IdsWithStatus | components/importar/file-importer.tsx:62 | an id is listed iff some entry with it has the status |
| FileImporter.MarkUploading | components/importar/file-importer.tsx:57-59 | pending entries become "uploading" with nothing else changed, all others are kept, and no entry is left pending |
| FileImporter.StartedIntended | components/importar/file-importer.tsx:57-66 | the intended start list holds every entry the button moves from pending to uploading, and only ids of pending entries |
| FileImporter.PendingFileNeverStarts | components/importar/file-importer.tsx:62 | as written, one freshly picked file is accepted and marked "uploading", but the start list is empty and the list never finishes |
| FileImporter.IntendedStartsMarkedFiles | components/importar/file-importer.tsx:57-66 | every pending file with its own id is marked uploading and started by the intended list, and missed by the written one |
| FileImporter.Importer.constructor | components/importar/file-importer.tsx:25-26 | no files and not uploading |
| FileImporter.Importer.HandleFileChange | components/importar/file-importer.tsx:29-42 | the picked files are appended as pending at progress 0, in order; nothing else changes |
| FileImporter.Importer.HandleUpload | components/importar/file-importer.tsx:44-67 | an empty list or one where every file succeeded is refused with nothing changed; otherwise the flag rises, pending files become uploading and the intended files are started |
| FileImporter.Importer.SimulateFileUpload | components/importar/file-importer.tsx:69-116 | only entries with the id change; when the steps add up to 100 they end completed with "Error al importar el archivo" on failure, when they add up to less they end at that sum, and with no tick they are untouched; twenty ticks of 5-19 points always complete them; a report comes exactly when the ticks reach 100 points and every file has then finished, and it drops the flag and carries the success count; without one the flag is kept |
| FileImporter.Importer.RemoveFile | components/importar/file-importer.tsx:118-120 | exactly the entries with the id are removed, in order, and the flag is kept |
| FileUploader.Uploader.constructor | components/importar/file-uploader.tsx:20 | no files |
| FileUploader.Uploader.OnDrop | components/importar/file-uploader.tsx:23-37 | the dropped files are appended as "uploading" at progress 0 and each of them, in order, is started |
| FileUploader.Uploader.SimulateUpload | components/importar/file-uploader.tsx:54-94 | only entries with the id change; when the steps add up to 100 they end completed with "Error al subir el archivo" on failure, when they add up to less they end at that sum, and with no tick they are untouched; twenty ticks of 5-14 points always complete them |
| FileUploader.Uploader.RemoveFile | components/importar/file-uploader.tsx:96-98 | exactly the entries with the id are removed, in order |
| FileKinds.Extension | components/importar/file-importer.tsx:123 | the extension has no dot, is the lowercased tail of the name, and is the whole name lowercased when the name has no dot |
| FileKinds.ExtensionOf | components/importar/file-importer.tsx:123 | the extension of stem + "." + ext is ext lowercased, whatever the stem holds |
| FileKinds.ImporterIcon | components/importar/file-importer.tsx:122-138 | never orange; red iff the extension is pdf; grey iff it is none of the nine listed extensions; the share form's `getFileIcon` (components/compartir/share-file-form.tsx:137-153) is the same table |
| FileKinds.UploaderIcon | components/importar/file-uploader.tsx:100-116 | orange iff ppt or pptx; red iff pdf; grey iff none of the thirteen listed extensions |
| FileKinds.IconTablesAgree | components/importar/file-uploader.tsx:100-116 | the two icon tables give the same colour except for svg, webp, ppt and pptx |
| FileKinds.IconIgnoresCase | components/importar/file-importer.tsx:123 | an upper-case extension gets the colour of its lower-case form in both tables |
| JoinMeeting.ActiveMeetings | components/reuniones/join-meeting.tsx:25-47 | the three meetings in progress |
| JoinMeeting.ActiveIdsPassSchema | components/reuniones/join-meeting.tsx:18-20 | every active meeting id has the five characters the form demands |
| JoinMeeting.FindMeeting | components/reuniones/join-meeting.tsx:125 | the first meeting carrying the id, and none iff no meeting carries it |
| JoinMeeting.Minutes | components/reuniones/join-meeting.tsx:238-239 | the whole minutes elapsed, rounded down, also for negative differences |
| JoinMeeting.HoursAndMinutes | components/reuniones/join-meeting.tsx:244-245 | 60 · hours + minutes is the duration and fewer than 60 minutes are left |
| JoinMeeting.ShortDurationReadsBack | components/reuniones/join-meeting.tsx:241-242 | under an hour the label is a digit string followed by " min", and the digits read back as the minutes elapsed |
| JoinMeeting.LongDurationReadsBack | components/reuniones/join-meeting.tsx:243-246 | from an hour on, the digits before "h" and before the final "m" read back as hours and minutes with 60 · h + m the minutes elapsed and m < 60 |
| JoinMeeting.MeetingRoom.constructor | components/reuniones/join-meeting.tsx:50-56 | not joining, not in a meeting, camera and microphone on, both permissions "prompt", empty meeting id, no media requested, an empty video element and no stream kept |
| JoinMeeting.MeetingRoom.RequestMediaPermissions | components/reuniones/join-meeting.tsx:74-108 | one request for the flags the caller read is logged; a stream comes back iff the browser gives one and the request asks for something; a stream grants both permissions, and it fills the video element iff that element is mounted when the answer arrives and the closure's camera flag is on; a "NotAllowedError" denies both; any other failure, including a request for nothing, keeps them; the meeting state is kept |
| JoinMeeting.MeetingRoom.Answered | components/reuniones/join-meeting.tsx:76-106 | the request is logged; a stream comes back iff the browser gives one and the request asks for something, granting both permissions; a refusal of a real request denies both; any other failure keeps them; the video element and the meeting state are kept |
| JoinMeeting.MeetingRoom.Join | components/reuniones/join-meeting.tsx:120-176 | enters iff the id is an active meeting and a stream came back or both camera and microphone are off; the current meeting is then the one found; otherwise the meeting state is as before; an unknown id asks for no permission; isJoining is false on every exit; a known id logs one request for the current camera and microphone flags; joining from outside a meeting never fills the video element, which is not mounted until `setInMeeting(true)` |
| JoinMeeting.MeetingRoom.JoinIntended | components/reuniones/join-meeting.tsx:120-176 | as Join, but an entry keeps the stream iff the browser gave one for a request that asked for something, and the video element is left for the effect |
| JoinMeeting.MeetingRoom.AttachEffect | components/reuniones/join-meeting.tsx:319-322 | a kept stream fills the video element iff the element is mounted, in a meeting with the camera on; nothing else changes |
| JoinMeeting.MeetingRoom.JoinFromList | components/reuniones/join-meeting.tsx:183-187 | the form field takes the listed id, then joining behaves as above, leaving the video element as it was |
| JoinMeeting.MeetingRoom.Leave | components/reuniones/join-meeting.tsx:189-200 | out of the meeting, no current meeting, the form cleared, the video element emptied and no stream kept, camera and microphone settings kept |
| JoinMeeting.MeetingRoom.ToggleCamera | components/reuniones/join-meeting.tsx:202-213 | the camera flag flips; in a meeting the video element is emptied and stays empty, and switching the camera on asks for `{video: false, audio: <mic>}`, the flag read before the flip, so permissions change only when the microphone is on and the browser answers; outside a meeting nothing else changes |
| JoinMeeting.MeetingRoom.ToggleCameraIntended | components/reuniones/join-meeting.tsx:202-213 | as ToggleCamera, but switching the camera off drops the kept stream, and switching it on in a meeting asks for video and keeps the answer iff a stream comes back, leaving the video element to the effect |
| JoinMeeting.CameraBackOn | components/reuniones/join-meeting.tsx:74-213 | as written, joining with camera and microphone on and a stream leaves the video element empty, and after switching the camera off and on it is still empty and the last request did not ask for video, whatever the browser answers |
| JoinMeeting.CameraBackOnIntended | components/reuniones/join-meeting.tsx:74-213 | with the stream kept and attached by the effect, the video shows after the join, and after the same toggles the last request asks for video and audio and the video shows iff a stream comes back |
| JoinMeeting.MeetingRoom.ToggleMic | components/reuniones/join-meeting.tsx:216-225 | the microphone flag flips and nothing else changes, requests, the video element and the kept stream included |
| CreateMeeting.FilteredUsers | components/reuniones/create-meeting.tsx:87-88 | "Todas" lists every user; any other zone lists only users of that zone, each from the directory |
| CreateMeeting.FilteredUsersInOrder | components/reuniones/create-meeting.tsx:87-88 | the users of the chosen zone keep the directory's order |
| CreateMeeting.DefaultsFailSchema | components/reuniones/create-meeting.tsx:44-51 | the untouched form, with no title and no participants, fails the schema |
| CreateMeeting.NumberOf | components/reuniones/create-meeting.tsx:102 | a number comes back iff the text is all digits |
| CreateMeeting.Pad2 | components/reuniones/create-meeting.tsx:102 | a time field's part is two digits |
| CreateMeeting.TwoDigitsValue | components/reuniones/create-meeting.tsx:102 | two digits read back as the number they were written from |
| CreateMeeting.ClockTimeReadsBack | components/reuniones/create-meeting.tsx:102 | splitting "HH:MM" at ':' and reading both halves gives back the hours and minutes |
| CreateMeeting.DefaultTimeIsTen | components/reuniones/create-meeting.tsx:102 | the default "10:00" reads as ten o'clock |
| CreateMeeting.MeetingLink | components/reuniones/create-meeting.tsx:133 | the link starts with "https://meet.ecosoft.com/" |
| CreateMeeting.LinkReadsBack | components/reuniones/create-meeting.tsx:133 | the meeting id is the text after the link's last '/' |
| CreateMeeting.Record | components/reuniones/create-meeting.tsx:98-124 | a time that does not parse fails with the error message; otherwise the record carries the id, title, description or "", hours and minutes, "<d> minutos", the participants' names joined by ", ", the current user, the time and status "scheduled" |
| CreateMeeting.MeetingForm.constructor | components/reuniones/create-meeting.tsx:60-81 | not creating, zone "Todas", values at their defaults, nothing created |
| CreateMeeting.MeetingForm.Submit | components/reuniones/create-meeting.tsx:90-160 | values failing the schema change nothing; otherwise a recorded meeting returns its link and resets the form, a failure returns the error and keeps the values; creation ends in every case |
| Directory.Find | components/reuniones/create-meeting.tsx:118 | the first person with the id, and none iff nobody has it |
| Directory.DisplayName | components/reuniones/create-meeting.tsx:117-120 | a known id shows as its first person's name, an unknown one as itself |
| Directory.DisplayNames | components/reuniones/create-meeting.tsx:116-120 | one display name per chosen id, in the order chosen |
| Directory.JoinedNamesSplitBack | components/reuniones/create-meeting.tsx:116-121 | when no name holds a comma, the joined text splits at commas into one piece per id: the first name, then " " + each further name |
| Directory.FormUsers | components/utilidades/scan-document-utility.tsx:21-27 | the five sample users, none with a comma in the name |
| Directory.DisplayNameWithoutComma | components/utilidades/scan-document-utility.tsx:167-172 | a display name holds no comma when neither the names nor the id do |
| Directory.FormRecipientsSplitBack | components/utilidades/scan-document-utility.tsx:167-172 | with the sample users, the recipients text of comma-free ids splits back into one piece per id |
| UserCreateDialog.ScanDecidesPolicy | components/users/user-create-dialog.tsx:24-30 | one pass recording which character classes occur accepts exactly the passwords the regular expression accepts |
| UserCreateDialog.ScanFlags | components/users/user-create-dialog.tsx:27 | each flag of the pass is set iff the password has a character of that class, and no stray flag iff every character is allowed |
| UserCreateDialog.SeededPasswordsPass | components/users/user-create-dialog.tsx:27 | the two passwords of the login route satisfy the policy |
| UserCreateDialog.LowerCaseOnlyRefused | components/users/user-create-dialog.tsx:27 | a password without a capital letter is refused |
| UserCreateDialog.DefaultsRefused | components/users/user-create-dialog.tsx:22-32 | the defaults are role "user" and status "active", and the untouched form fails the schema |
| Sidebar.InitialMenus | components/dashboard/sidebar.tsx:22-30 | seven menus, all collapsed |
| Sidebar.Toggle | components/dashboard/sidebar.tsx:35-40 | the toggled menu flips and every other entry is unchanged |
| Sidebar.ToggleTwice | components/dashboard/sidebar.tsx:35-40 | toggling a menu twice restores the record |
| Sidebar.TogglesCommute | components/dashboard/sidebar.tsx:35-40 | toggles of two menus commute |
| Sidebar.MenuHeaders | components/dashboard/sidebar.tsx:266-295 | the Usuarios header is shown iff the user is an admin; six headers otherwise |
| Sidebar.CollapsedShowsNothing | components/dashboard/sidebar.tsx:22-30 | with every menu collapsed no link is shown |
| Sidebar.CreateMeetingLinkForAdmins | components/dashboard/sidebar.tsx:221-225 | the "Crear reunión" link is shown iff the user is an admin and Reuniones is expanded |
| Sidebar.UsersLinkForAdmins | components/dashboard/sidebar.tsx:266-295 | the user-management link is shown iff the user is an admin and Usuarios is expanded |
| Sidebar.HrefsDistinct | components/dashboard/sidebar.tsx:64-296 | no two links share an href |
| Sidebar.SidebarState.constructor | components/dashboard/sidebar.tsx:22-30 | all menus collapsed and no navigation |
| Sidebar.SidebarState.MenuClick | components/dashboard/sidebar.tsx:95-99 | a header click toggles its menu and pushes "/dashboard/" + the menu |
| Sidebar.SidebarState.HandleLogout | components/dashboard/sidebar.tsx:46-54 | when logout resolves, the session is cleared and the router goes to /login; when it throws, nothing moves; the menus are kept |
| ScanDocument.DefaultName | components/utilidades/scan-document-utility.tsx:107-108 | "documento_escaneado_" followed by the first 19 characters of the timestamp, with no ':' or '.', other characters kept in place |
| ScanDocument.OutputFileIsPdf | components/utilidades/scan-document-utility.tsx:165 | the recorded file has extension "pdf", and for a name without a dot the text before the first dot is that name |
| ScanDocument.DefaultNameReadsBack | components/utilidades/scan-document-utility.tsx:107-108 | the default name is recovered from the recorded file as the text before its first dot |
| ScanDocument.Scanner.constructor | components/utilidades/scan-document-utility.tsx:34-41 | permission "prompt", camera off, no image, not processing, progress 0, empty name and recipients, quality "high", nothing logged |
| ScanDocument.Scanner.RequestCameraPermission | components/utilidades/scan-document-utility.tsx:47-72 | a stream grants the permission and turns the camera on; a failure marks it denied; nothing else changes |
| ScanDocument.Scanner.StopCamera | components/utilidades/scan-document-utility.tsx:75-82 | the camera is off and nothing else changes |
| ScanDocument.Scanner.CaptureImage | components/utilidades/scan-document-utility.tsx:85-116 | a drawable frame becomes the image, stops the camera and sets the default name from the time; otherwise nothing changes |
| ScanDocument.Scanner.ResetScan | components/utilidades/scan-document-utility.tsx:119-125 | no image, empty name and recipients, progress 0, not processing, so the scan is no longer ready to share |
| ScanDocument.Scanner.ProcessAndShare | components/utilidades/scan-document-utility.tsx:128-185 | starts iff there is a nonempty image, a nonempty name and a recipient, with nothing changed otherwise; a start logs one "scan" record with name + ".pdf", the quality, the recipients' names joined by ", ", the user and the time, notifies the parent, and ends not processing with progress equal to the sum of the steps of the ticks that fired, clamped at 100 |
| ShareFileForm.DefaultsNeedFileAndRecipient | components/compartir/share-file-form.tsx:26-31 | the default values fail the schema, and adding a file and one recipient makes them pass |
| ShareFileForm.ExpiryWithinAMonth | components/compartir/share-file-form.tsx:107-109 | under the schema an expiry exists iff days are given, it lies 1 to 30 days after now, and the default is 7 days (604800000 ms) |
| ShareFileForm.RecipientNamesCount | components/compartir/share-file-form.tsx:94-113 | at most one name per chosen id; exactly one each iff every id is a known user; none when no id is |
| ShareFileForm.RecordsNameRecipients | components/compartir/share-file-form.tsx:99-111 | one record per recipient name, in order, each naming the file, that recipient, the current user, the expiry and the message or "" |
| ShareFileForm.ShareRecords | components/compartir/share-file-form.tsx:94-113 | the loop logs exactly the records of the recipients found, in the order chosen |
| ShareFileForm.ShareForm.constructor | components/compartir/share-file-form.tsx:49-66 | no file, not loading, default values, nothing logged |
| ShareFileForm.ShareForm.HandleFileChange | components/compartir/share-file-form.tsx:69-75 | an empty pick changes nothing; otherwise the first file becomes the selection and the form's file |
| ShareFileForm.ShareForm.HandleRecipientsChange | components/compartir/share-file-form.tsx:77-79 | the form's recipients are replaced and nothing else changes |
| ShareFileForm.ShareForm.Submit | components/compartir/share-file-form.tsx:81-135 | submits iff the schema holds, with nothing changed otherwise; a submit logs the records of the recipients found, resets the form, clears the file and notifies the parent once |
| CompressUtility.EnumsRoundTrip | components/utilidades/compress-utility.tsx:23-24 | format and level texts parse back to their values, and every accepted text is the text of its value |
| CompressUtility.TotalSizeAppend | components/utilidades/compress-utility.tsx:151-153 | the size of two selections joined is the sum of their sizes |
| CompressUtility.TotalSizeBounds | components/utilidades/compress-utility.tsx:151-153 | every file's size is at most the total, and the total is 0 iff every file is empty (so 0 for no files) |
| CompressUtility.ArchiveNameReadsBack | components/utilidades/compress-utility.tsx:91-92 | the archive's extension is the chosen format and the text before its first dot is "archivos_comprimidos_" + the timestamp with ':' and '.' replaced |
| CompressUtility.DefaultsNeedOnlyFiles | components/utilidades/compress-utility.tsx:19-55 | the defaults alone fail the schema, having no files; with a file list written into the form they pass iff that list is nonempty, and they record no password |
| CompressUtility.Names | components/utilidades/compress-utility.tsx:106 | one name per selected file, in order |
| CompressUtility.Compressor.constructor | components/utilidades/compress-utility.tsx:35-55 | no files, not compressing, progress 0, no download, default values, nothing logged |
| CompressUtility.Compressor.HandleFileChange | components/utilidades/compress-utility.tsx:58-63 | a nonempty pick replaces the selection shown; an empty one changes nothing; the form values, `files` included, are untouched |
| CompressUtility.Compressor.HandleFileChangeIntended | components/compartir/share-file-form.tsx:69-75 | as HandleFileChange, and a nonempty pick is also written into the form's `files` |
| CompressUtility.Compressor.ChooseFormat | components/utilidades/compress-utility.tsx:205 | only the form's format changes |
| CompressUtility.Compressor.ChooseLevel | components/utilidades/compress-utility.tsx:223 | only the form's compression level changes |
| CompressUtility.Compressor.TypePassword | components/utilidades/compress-utility.tsx:240-246 | only the form's password changes |
| CompressUtility.Compressor.Submit | components/utilidades/compress-utility.tsx:65-139 | submits iff the form's own values pass the schema (files in the form, both enums parse), with nothing changed otherwise; a submit names the archive from the timestamp and format, offers and downloads it, logs one "compression" record with the selected file names joined by ", ", the format, the level, whether a password was given, the user and the time, notifies the parent, and ends with progress equal to the sum of the steps of the ticks that fired, clamped at 100 |
| CompressUtility.PickThenSubmit | components/utilidades/compress-utility.tsx:169-177 | as written, a nonempty pick enables the button, but whatever the selects and the password hold, the submit is refused |
| CompressUtility.PickThenSubmitIntended | components/utilidades/compress-utility.tsx:58-63 | with the pick written into the form, and valid select items, the submit goes through iff files were picked |

## Left out

- The MySQL pool, the schema set-up script and the logout route's single cookie delete are not part of this model. The users table is an in-memory sequence of rows whose queries never fail. The register route's 500 comes only from a body that does not parse or lacks a field.
- bcrypt's hashing and salt generation are not modelled. A digest is a value built from the password and a salt given as a parameter, and `compare` is the `Matches` relation.
- AuthDb.HashContract: bcrypt reads only the first 72 bytes of a password, so two passwords that agree on those bytes match the same digest. The model's "no other password" holds only for passwords of at most 72 bytes.
- AuthDb.GetUserByEmail (and AuthDb.UsersTable.RegisterUser, AuthSession.GetSession, which use it): emails are compared exactly. The MySQL `WHERE email = ?` uses the column's collation, which by default ignores case and trailing spaces, so the database can find a row the model does not.
- AuthDb.GetUserByEmail: `LIMIT 1` without `ORDER BY` lets the database return any matching row. The model returns the first in table order, which is the only row while emails are unique.
- UserCreateDialog.SchemaValid, CreateMeeting.SchemaValid, JoinMeeting.MeetingIdValid, SaleCart.SaleFormValid: zod's `.min(n)` counts UTF-16 code units while the model counts characters, so a text with characters outside the Basic Multilingual Plane can pass zod and fail the model.
- JSON is not parsed character by character. A text is either the encoding of an object with string fields or some other text, and values that are not strings (numbers, arrays, `null`) fall into the second case.
- `toLowerCase`, `trim` and `includes` act on the ASCII letters and spaces only. Unicode case mapping and white space are not modelled.
- Timers, `setTimeout` delays and React's batching of state updates are not modelled. Each interval runs to its end over the random steps of the ticks that fired, which are given as a parameter, and no two callbacks interleave.
- Random ids (`Math.random().toString(36)`), the clock (`new Date().toISOString()`, `Date.now()`) and the random outcome of each simulated upload are parameters.
- `formatFileSize`, the `Intl.DateTimeFormat` helpers and everything done in floating point are not modelled. Prices are whole cents.
- `getUserMedia`, media tracks, the canvas, `Blob`, `URL.createObjectURL` and the download anchor are not modelled. Their outcomes are parameters: a media outcome, a `drawable` flag with the data URL, and the object URL. A download is recorded as the file name it was started with.
- The JSX, toasts, dialogs' open flags that no modelled property reads, and the tab managers and pages are not modelled.
- zod's `.email()` format check is not modelled. Its verdict is a parameter.
- `Number()` is modelled on digit text only. Any other text is NaN, so the meeting record fails, which is the path the source's catch takes.
- JoinMeeting.MeetingRoom.ToggleCamera, JoinMeeting.MeetingRoom.ToggleMic: media tracks are left out. The video element is only full or empty, and stopping a stream or enabling its audio tracks is not modelled beyond that; in particular the tracks that `stopMediaStream` fails to stop stay live, and the model does not count them. Whether the element is mounted when an answer arrives is taken from the render that follows the request: on a toggle the new element is mounted by then.
- CreateMeeting.MeetingForm.Submit, ShareFileForm.ShareForm.HandleRecipientsChange, ScanDocument.Scanner.ProcessAndShare: the participants and recipients are taken as already chosen, either handed to the form or held in the scanner's state. Through the pages as written the picker lists nothing, so none can be chosen (see the findings), and these paths are reachable only with the picker wired as intended.
- CreateMeeting.Record: the date is kept as the form's text with the parsed hours and minutes beside it. `setHours` on a local date and its `toISOString` are not modelled.
- ShareFileForm.ShareForm.Submit: `expiresAt` is kept in milliseconds rather than as its ISO 8601 text. The toast's recipient count is not modelled.
- CompressUtility.Compressor.Submit: the error message under the file input and the schema's check that the value is a `FileList` are not modelled. A form file list is a sequence of files, and the one the input registers with is empty.
- ScanDocument.Scanner.ProcessAndShare, ConvertUtility.ConvertForm.Convert, CompressUtility.Compressor.Submit: the interval that keeps running after the fixed delay is not modelled. Progress is what the ticks that fired before the end produced.
- ScanDocument.Scanner.RequestCameraPermission, ScanDocument.Scanner.CaptureImage, ScanDocument.Scanner.StopCamera: the scanner has the same mount order as the meeting page. `requestCameraPermission` writes the stream into `videoRef.current` before `setIsCameraActive(true)` mounts the `<video>` (scan-document-utility.tsx:51-53 against :218), so the preview stays blank, `captureImage` draws a 0×0 canvas whose data URL is `"data:,"`, and `stopCamera` never stops the tracks. The model takes the captured data URL as a parameter and does not track the video element, so it does not show this.
- UtilitiesHistory: the operation-specific fields (formats, quality, file lists) are kept out of the entries, because no modelled operation reads them.
- The user edit dialog (admin|operator roles), apart from the five fields its schema hands back, and the product, contact and share dialogs hold only library-driven form wiring and are not modelled.
- UserTable.UsersPage.HandleSave: rendering a saved row is not modelled. `formatDate` of the missing dates builds an invalid `Date`, and `Intl.DateTimeFormat.format` throws on it (user-table.tsx:144-152, :211-212); the model states only that the row is not `Renderable`.
- try/catch branches whose bodies cannot throw once the browser calls are parameters (the toasts and the simulated delays) are modelled as their normal path.

## Findings

| source | as written | input that shows it | evidently intended | confidence | as-written member | corrected member |
|---|---|---|---|---|---|---|
| components/importar/file-importer.tsx:62 | the files to start are filtered for status "uploading" from `selectedFiles` as it was before the click's update, so a file that was "pending" is marked "uploading" but its simulation is never started, and `isUploading` never drops | one freshly picked file, status "pending", then the upload button | start a simulation for every file the click moves from "pending" to "uploading" | high, not executed | FileImporter.PendingFileNeverStarts | FileImporter.IntendedStartsMarkedFiles |
| components/utilidades/compress-utility.tsx:175-176 | the file input spreads `register("files")` and then replaces its `onChange` with `handleFileChange`, which fills only the component's `selectedFiles`; the form's `files` keeps the empty list it registered with, the schema's `files.length > 0` refuses every submit, and `onSubmit` never runs | pick one file, keep the defaults, press the enabled button | write the pick into the form too, as the share form's `setValue("file", file)` does | medium, not executed: it holds where a pick gives the input a new `FileList`, as Chromium does; an engine that refills the registered list in place would let the submit through | CompressUtility.PickThenSubmit | CompressUtility.PickThenSubmitIntended |
| components/reuniones/create-meeting.tsx:268-283 | the meeting form (and likewise the scanner at components/utilidades/scan-document-utility.tsx:289-300 and the share form at components/compartir/share-file-form.tsx:199-210) gives `MultiSelect` its items as children, but it takes no children and lists only its `options` prop, which all three leave out; the popover is empty, no participant or recipient can be chosen, and each schema's "at least one" refuses the submit | open the participants picker with any zone chosen | pass the users as `options` (value: id, label: name) | high, not executed | MultiSelect.WithoutOptionsNothingIsChosen | MultiSelect.IntendedPicksChooseAnyUsers |
| components/reuniones/join-meeting.tsx:74-213 | `requestMediaPermissions` writes the stream into `videoRef.current`, but `<video ref={videoRef}>` is rendered only inside a meeting with the camera on (:259, :321-322); `joinMeeting` asks before `setInMeeting(true)` (:138, :149), so the ref is null and the stream is dropped; `stopMediaStream` (:112) then finds no `srcObject` and never stops its tracks. On top of that, `toggleCamera` flips `cameraEnabled` and calls `requestMediaPermissions`, whose closure still reads the old `false`: it asks for `{video: false, audio: micEnabled}` and skips the write (:81), and with the microphone off the request asks for nothing and is rejected with a `TypeError` | join with camera and microphone on and a stream; then switch the camera off and on | keep the stream in state and attach it in an effect once the video element mounts, and ask for the camera being switched on (video: true) | high, not executed | JoinMeeting.CameraBackOn | JoinMeeting.CameraBackOnIntended |
| components/sales/sale-create-dialog.tsx:57-67 | the form's `items` starts at `[]` and is never registered or set (no `setValue` is taken from `useForm`); the cart lives in separate state (:52), so `items.min(1)` (:39) refuses every submit, shows "Debe agregar al menos un producto" (:260), and `onSubmit` never runs, though the cart enables the button (:264) | type a customer, add one product, press the enabled button | write the cart into the form's `items` whenever it changes | high, not executed | SaleCart.FillThenSubmit | SaleCart.FillThenSubmitIntended |
