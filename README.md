# Salon booking: a verified model of the booking rules

This project models the logic at the core of a salon booking web app. Clients book a slot with a professional for a service. They find their bookings by phone number and can cancel them. Staff manage the bookings, the professionals and the admins from an admin panel, which also shows monthly reports.

The hosted database is modelled in memory by `Database.Db`:

- one sequence per table, in insertion order;
- a counter from which new row ids are issued, as decimal numerals.

`Db.Valid()` says every row id of the appointments, professionals and admins tables was issued before the counter and appears once. Every handler keeps it.

The modules follow the program's files:

| module | what it models |
|---|---|
| `Text` | the string work the pages do: digit stripping, `trim`, `split`/`join`, decimal numerals, `padStart` |
| `Sorting` | a stable insertion sort. It stands for `Array.prototype.sort` and for the database's `order by`. It also holds JavaScript's string order |
| `Records` | the rows of the tables, the routes' responses, and delete/update by id |
| `Database` | the in-memory tables, and id issuing with its freshness |
| `PhoneMask` | the Brazilian phone mask hook: the pure `formatPhone`, and the class `PhoneInput` with its two state cells |
| `Display` | `formatDuration` and `getStatusText` |
| `Session` | browser session storage, as a class over a map |
| `AppointmentsRoute` | `/api/appointments`: GET, POST (validation, slot check, insert) and PATCH |
| `HomePage` | the sweep that completes past appointments, and the active-services list |
| `ConfirmPage` | the confirmation page: its mount, and its direct insert with no slot check |
| `MyAppointmentsPage` | the client's search by phone, the cancel, and the session keys read on mount |
| `ProfessionalsRoute` | `/api/professionals`: POST, PUT (replacing associations) and DELETE (guarded by appointments) |
| `ManageAdminsRoute` | `/api/admin/manage-admins`: POST (auto-created professional), DELETE, and PATCH (delete action) |
| `AdminReport` | what the admin panel computes from query results: counts, revenue, per-service and per-professional tallies, rankings, month keys |
| `AdminPage` | the admin panel: visibility per role, the menu, the specialties field, the report's rows, and the class `AdminPage` with its fetches and local updates |

The central integrity rule is `AppointmentsRoute.NoDoubleBooking`: no two `scheduled` appointments share a professional, a date and a time. The model proves which paths keep this rule and which break it.

Paths that keep it:

- POST, alone or in any sequence;
- the sweep;
- a cancel;
- a delete.

Paths that break it, each with a concrete table:

- the confirmation page, which inserts with no check;
- PATCH, when it sets a status back to `scheduled`.

The model's state is its own:

- Handlers take explicit parameters for database failures. These are error codes or `bool` flags saying that a query fails.
- "Today" and creation timestamps are parameters.
- A bcrypt hash is a parameter.

## Model

| member | source | states |
|---|---|---|
| `PhoneMask.FormatPhone` | hooks/use-phone-mask.tsx:11-30 | Stripping the mask returns the first eleven digits of the input. The mask adds one character for up to two digits, three for up to seven, and four beyond that. It starts with `(`. |
| `PhoneMask.MaskDigits` | hooks/use-phone-mask.tsx:16-23 | Each of the three mask shapes strips back to exactly the digits it was built from. |
| `PhoneMask.FormatPhoneOnlyDigits` | hooks/use-phone-mask.tsx:13 | The mask of any text equals the mask of its digits, so non-digits have no effect. |
| `PhoneMask.FormatPhoneRoundTrip` | hooks/use-phone-mask.tsx:13-28 | For a digit string of at most eleven digits, stripping its mask gives it back exactly. |
| `PhoneMask.FormatPhoneTruncates` | hooks/use-phone-mask.tsx:24-28 | With more than eleven digits, the mask equals the mask of the first eleven. |
| `PhoneMask.PhoneInput.constructor` | hooks/use-phone-mask.tsx:8-9 | Both state cells start empty, and the cell invariant holds. |
| `PhoneMask.PhoneInput.OnChange` | hooks/use-phone-mask.tsx:32-43 | Input with at most eleven digits sets `rawValue` to its digits and `value` to their mask. Longer input leaves both cells unchanged. The invariant is kept: `rawValue` is all digits and `value` is its mask. |
| `PhoneMask.PhoneInput.SetValue` | hooks/use-phone-mask.tsx:65-69 | Sets `rawValue` to the digits and `value` to their mask, with no length guard. The mask then shows only the first eleven digits of `rawValue`. |
| `PhoneMask.PhoneInput.GetUnmaskedValue` | hooks/use-phone-mask.tsx:52-54 | Returns the digits typed. Within eleven digits, they are exactly the digits the mask shows. |
| `PhoneMask.PhoneInput.IsValid` | hooks/use-phone-mask.tsx:56-58 | Within eleven digits, true exactly when the mask shows at least ten digits. |
| `Text.Digits` | hooks/use-phone-mask.tsx:13 | `replace(/\D/g, "")`: the result is all digits and no longer than the input. |
| `Text.DigitsConcat` | hooks/use-phone-mask.tsx:13 | Stripping non-digits distributes over concatenation. |
| `Text.DigitsOfDigits` | hooks/use-phone-mask.tsx:13 | Stripping is the identity on digit strings, and so is idempotent. |
| `Text.Trim` | app/api/appointments/route.ts:92-93 | `trim()`: the result is no longer than the input and neither starts nor ends with whitespace. |
| `Text.TrimEmptyIff` | app/confirmar-agendamento/page.tsx:74 | A trimmed string is empty exactly when every character of the input is whitespace. |
| `Text.TrimOfTrimmed` | app/admin/page.tsx:662 | Trimming a string with no outer whitespace changes nothing. |
| `Text.TrimWithin` | app/admin/page.tsx:662 | A character absent from a string is absent from its trimmed form. |
| `Text.TrimAfterSpace` | app/admin/page.tsx:883 | Trimming removes the space `join(", ")` puts before a trimmed, non-empty entry. |
| `Text.Split` | app/admin/page.tsx:661 | `split(",")` returns at least one piece, and no piece contains the separator. |
| `Text.SplitJoin` | app/admin/page.tsx:883 | Splitting a joined list on a separator that no piece contains gives the list back. |
| `Text.Join` | app/admin/page.tsx:883 | `join(sep)`. A definition; `Text.SplitJoin` and `AdminPage.JoinSpaced` prove its properties. |
| `Text.SplitAfterPiece` | app/admin/page.tsx:273 | Splitting `p + sep + rest`, where `p` is free of the separator, gives `p` followed by the split of `rest`. |
| `Text.NatToString` | app/page.tsx:61 | The numeral is a non-empty digit string, with one digit exactly when the number is below ten. |
| `Text.ParseNatToString` | app/admin/page.tsx:275-276 | Reading a numeral back gives its number. |
| `Text.NatToStringInjective` | app/admin/page.tsx:259-261 | Distinct numbers have distinct numerals. |
| `Text.IntToString` | app/admin/page.tsx:259 | `${year}` for an integer. Its contract states that the text is never empty, which the month key relies on. |
| `Text.PadStart2` | app/page.tsx:66 | `padStart(2, "0")`: the length is the larger of the input's and two, and the input is its suffix. |
| `Text.PaddedNumeral` | app/page.tsx:66 | A number below 100, padded to two places, has two digits and reads back as that number. |
| `Text.DigitsExclude` | app/admin/page.tsx:259-261 | A digit string contains no separator character. |
| `Sorting.SortBy` | app/admin/page.tsx:334-336 | The sorted sequence is a permutation of the input. |
| `Sorting.SortBySorted` | app/admin/page.tsx:334-336 | If the comparator is a strict order, no element is placed after one it must precede. |
| `Sorting.InsertSorted` | app/api/appointments/route.ts:27-28 | Inserting into a sorted sequence keeps it sorted. |
| `Sorting.Reverse` | app/admin/page.tsx:339 | `reverse()`: the same length, with element `i` taken from position `n - 1 - i`. |
| `Sorting.StringBeforeIsStrictOrder` | app/admin/page.tsx:265 | JavaScript's default string order is irreflexive and transitive. |
| `Sorting.StringBeforeTotal` | app/admin/page.tsx:265 | Any two different strings are ordered one way or the other. |
| `Sorting.StringBefore` | app/admin/page.tsx:265 | The default `sort()` comparison, by character code, a proper prefix first. A definition; `Sorting.StringBeforeIsStrictOrder` and `Sorting.StringBeforeTotal` prove its properties. |
| `Sorting.SameMultisetDistinct` | app/admin/page.tsx:256-265 | A permutation of a list without repetitions has none either, so sorting a `Set` keeps it duplicate-free. |
| `Sorting.SortedDistinctStrings` | app/admin/page.tsx:265 | Sorted distinct strings are in strictly ascending order. |
| `Records.WithStatus` | app/api/appointments/route.ts:123-126 | Setting a status by id keeps the length. Rows with that id get the new status and every other row is unchanged. |
| `Records.WithoutId` | app/api/admin/manage-admins/route.ts:137-140 | Deleting by id never adds rows. |
| `Records.WithoutIdMembers` | app/admin/page.tsx:640 | Deleting by id keeps exactly the rows with another id. |
| `Records.WithoutIdSplits` | app/api/admin/manage-admins/route.ts:137-140 | The rows kept and the rows with the id together account for every row. |
| `Records.WithoutProfessional` | app/api/professionals/route.ts:174-177 | Deleting a professional by id keeps exactly the professionals with another id. |
| `Records.WithoutAdmin` | app/api/admin/manage-admins/route.ts:112 | Deleting an admin by id keeps exactly the admins with another id. |
| `Records.RowsWithId` | app/api/appointments/route.ts:123-128 | The rows `eq("id", id)` selects: exactly the rows with that id. |
| `Database.IdFor` | app/api/appointments/route.ts:87-99 | The model's stand-in for the id the database gives an inserted row (`.insert(...).select().single()` returns it): a non-empty digit string, drawn from a counter. |
| `Database.IssueFresh` | app/api/appointments/route.ts:87-99 | For the model's stand-in ids, the primary-key promise of the database's id default: the id issued at the counter is not among the issued ids, and adding it keeps them issued and distinct. |
| `Database.DropId` | app/api/admin/manage-admins/route.ts:112 | Removing an id keeps exactly the other ids. |
| `Database.DropIdKeepsIssued` | app/api/admin/manage-admins/route.ts:112 | Deleting rows keeps the remaining ids issued and distinct. |
| `Database.AppointmentIdsWithout` | app/api/admin/manage-admins/route.ts:137-140 | The ids left after deleting an appointment are the old ids without that id. |
| `Database.ProfessionalIdsWithout` | app/api/professionals/route.ts:174-177 | The ids left after deleting a professional are the old ids without that id. |
| `Database.AdminIdsWithout` | app/api/admin/manage-admins/route.ts:112 | The ids left after deleting an admin are the old ids without that id. |
| `Database.Db.constructor` | lib/supabase.ts:6 | The in-memory stand-in for the client `createClient` connects to: A database with only the given services is valid. |
| `Database.Db.NewId` | app/api/professionals/route.ts:40-51 | The model's stand-in for the database's id default on insert. Issues the next numeral. It is absent from every table, the counter advances, and validity is kept. |
| `AppointmentsRoute.Occupants` | app/api/appointments/route.ts:67-74 | The slot lookup selects exactly the scheduled rows of that professional, date and time. |
| `AppointmentsRoute.MissingField` | app/api/appointments/route.ts:52-59 | A required field of the body is missing or empty. A definition; `AppointmentsRoute.Post` states its 400 answer. |
| `AppointmentsRoute.Single` | app/api/appointments/route.ts:67-78 | `.single()`: the row when exactly one matches, and the error code PGRST116 for none or several. A definition; `AppointmentsRoute.AtMostOneOccupant` and `AppointmentsRoute.PostOverlooksDoubleBookedSlot` prove its consequences. |
| `AppointmentsRoute.DecidePost` | app/api/appointments/route.ts:52-85 | POST's decision before the insert: reject with an answer, or insert. A definition; `AppointmentsRoute.Post`, `AppointmentsRoute.PostRefusesTakenSlot` and `AppointmentsRoute.PostIgnoresUnscheduled` state its outcomes. |
| `AppointmentsRoute.NewAppointment` | app/api/appointments/route.ts:87-97 | The inserted row: trimmed name and phone, the other fields copied, status scheduled. A definition; `AppointmentsRoute.Post` and `ConfirmPage.ConfirmRowIsPostRow` state it. |
| `AppointmentsRoute.Post` | app/api/appointments/route.ts:40-108 | See below the table. |
| `AppointmentsRoute.NoOccupantsIff` | app/api/appointments/route.ts:67-80 | The lookup finds nothing exactly when no row occupies the slot. |
| `AppointmentsRoute.AtMostOneOccupant` | app/api/appointments/route.ts:67-74 | Under the double-booking rule, a slot has at most one occupant, so `.single()` sees one row or none. |
| `AppointmentsRoute.PostRefusesTakenSlot` | app/api/appointments/route.ts:67-85 | If a scheduled appointment holds the slot, POST answers 400 "Este horário já está ocupado" and the table is unchanged. |
| `AppointmentsRoute.PostIgnoresUnscheduled` | app/api/appointments/route.ts:73 | Cancelled or completed rows at the slot do not block it, and a valid request is inserted. |
| `AppointmentsRoute.PostAbortsOnLookupFailure` | app/api/appointments/route.ts:76-78 | A lookup error other than "no single row" gives 500, and the table is unchanged. |
| `AppointmentsRoute.PostKeepsNoDoubleBooking` | app/api/appointments/route.ts:67-97 | One POST keeps the double-booking rule. |
| `AppointmentsRoute.PostsKeepNoDoubleBooking` | app/api/appointments/route.ts:40-108 | Any sequence of POSTs keeps the double-booking rule. |
| `AppointmentsRoute.PostOverlooksDoubleBookedSlot` | app/api/appointments/route.ts:74-80 | `.single()` reports the same code for several rows as for none. A slot already holding two scheduled rows is therefore not seen as taken. |
| `AppointmentsRoute.Patch` | app/api/appointments/route.ts:111-137 | A missing id or status gives 400. A failed update gives 500. Otherwise the matching row gets the status, with no check of its current one, and every other row is unchanged. The answer is 200 with the updated row exactly when the id exists, and 500 otherwise. |
| `AppointmentsRoute.SingleRowWithId` | app/api/appointments/route.ts:123-128 | With distinct ids, exactly one row carries an existing id and none carries an absent one. |
| `AppointmentsRoute.WithStatusKeepsNoDoubleBooking` | app/api/appointments/route.ts:123-126 | Writing any status other than scheduled keeps the double-booking rule. |
| `AppointmentsRoute.PatchCanDoubleBook` | app/api/appointments/route.ts:116-127 | PATCH does not keep the rule. A table exists that satisfies it, where setting a row back to scheduled breaks it. |
| `AppointmentsRoute.EarlierSlotIsStrictOrder` | app/api/appointments/route.ts:27-28 | Ordering by date and then time is a strict order. |
| `AppointmentsRoute.EarlierSlot` | app/api/appointments/route.ts:27-28 | Order by date, then by time. A definition; `AppointmentsRoute.EarlierSlotIsStrictOrder` proves it a strict order. |
| `AppointmentsRoute.WithPhone` | app/api/appointments/route.ts:26 | `eq("client_phone", phone)` selects exactly the rows with that phone. |
| `AppointmentsRoute.ByPhone` | app/api/appointments/route.ts:17-28 | The rows with that phone, each as often as in the table, ordered by date and then time. |
| `AppointmentsRoute.Get` | app/api/appointments/route.ts:5-37 | A missing phone gives 400, and a failed query gives 500. Otherwise the answer is 200 with the rows whose phone equals the trimmed parameter, in slot order. |
| `HomePage.SweepRow` | app/page.tsx:28-32 | A row changes exactly when it is scheduled and dated before today, and then only in its status. |
| `HomePage.Due` | app/page.tsx:31-32 | The rows the update selects: scheduled and dated before today. A definition; `HomePage.SweptLeavesNothingDue` proves none is left. |
| `HomePage.Swept` | app/page.tsx:28-32 | The sweep applies that rule to every row and keeps the table's length and order. |
| `HomePage.AutoCompletePastAppointments` | app/page.tsx:24-40 | The table becomes its swept form. If the update fails, it is left as it was. The database stays valid. |
| `HomePage.SweptLeavesNothingDue` | app/page.tsx:28-32 | After the sweep, no scheduled appointment is dated before today. A row changed exactly when it was due, and then only to completed. |
| `HomePage.SweptIdempotent` | app/page.tsx:28-32 | A second sweep on the same day changes nothing. |
| `HomePage.SweptKeepsNoDoubleBooking` | app/page.tsx:28-32 | The sweep keeps the double-booking rule. |
| `HomePage.ActiveOnly` | app/page.tsx:44-47 | `eq("active", true)` keeps exactly the active services. |
| `HomePage.NameBefore` | app/page.tsx:48 | `order("name")`. A definition; `HomePage.ActiveServices` states the order it gives. |
| `HomePage.ActiveServices` | app/page.tsx:42-57 | The listed services are exactly the active ones, a permutation of the filtered table, with names in ascending order. |
| `Display.FormatDuration` | app/page.tsx:59-68 | The label always ends in `min`. The same function appears at app/meus-agendamentos/page.tsx:154-163 and app/confirmar-agendamento/page.tsx:122-129. |
| `Display.FormatDurationLongForm` | app/page.tsx:63-67 | From an hour up, the label is hours, `h:`, the minutes padded to two digits, and `min`. The whole-hour branch is the padded zero. |
| `Display.DurationRoundTrip` | app/page.tsx:59-68 | Reading back the label of any non-negative duration gives the minutes. |
| `Display.ShortDurationRoundTrip` | app/page.tsx:60-61 | Below an hour, the label `Nmin` reads back as `N`. |
| `Display.LongDurationRoundTrip` | app/page.tsx:63-67 | From an hour up, the label `H h:MM min` reads back as the minutes. |
| `Display.LongLabelValue` | app/page.tsx:66 | A label built from `q` hours and `r < 60` minutes reads as `60q + r`. |
| `Display.ReadLongLabel` | app/page.tsx:66 | A label `Hh:MMmin` with digit parts reads as `60 * H + MM`. |
| `Display.SplitHoursMinutes` | app/page.tsx:66 | The body of a long label splits on `:` into its hours part and its minutes. |
| `Display.StatusText` | app/meus-agendamentos/page.tsx:178-189 | `scheduled` becomes "Agendado", `cancelled` becomes "Cancelado" and `completed` becomes "Concluído". Any other status is shown as it is. The same function appears at app/admin/page.tsx:925-936. |
| `Display.StatusTextDistinguishesKnown` | app/meus-agendamentos/page.tsx:178-189 | The three known statuses get three different labels. |
| `Session.SessionStorage.constructor` | app/confirmar-agendamento/page.tsx:33 | The storage holds the given items. |
| `Session.SessionStorage.GetItem` | app/confirmar-agendamento/page.tsx:33 | `getItem` returns the stored value exactly when the key is present. |
| `Session.SessionStorage.SetItem` | app/confirmar-agendamento/page.tsx:98-100 | `setItem` stores the value under the key, and every other key is unchanged. |
| `Session.SessionStorage.RemoveItem` | app/confirmar-agendamento/page.tsx:95 | `removeItem` drops the key, and every other key is unchanged. |
| `Session.Truthy` | app/meus-agendamentos/page.tsx:36-40 | A stored item tested with `if (item)`: present and not the empty string. A definition; `MyAppointmentsPage.MyAppointmentsPage.Mount` states what depends on it. |
| `ConfirmPage.ConfirmPage.constructor` | app/confirmar-agendamento/page.tsx:24-28 | No slot, an empty name and phone, and no redirect. |
| `ConfirmPage.ConfirmPage.Mount` | app/confirmar-agendamento/page.tsx:32-41 | A stored slot is taken. Without one, the page redirects home and takes nothing. |
| `ConfirmPage.CanSubmit` | app/confirmar-agendamento/page.tsx:74 | A slot is held, and neither the name nor the phone is blank. A definition; `ConfirmPage.ConfirmPage.HandleSubmit` and `Text.TrimEmptyIff` state what it allows. |
| `ConfirmPage.ConfirmRow` | app/confirmar-agendamento/page.tsx:82-90 | The row the page inserts. A definition; `ConfirmPage.ConfirmRowIsPostRow` proves it equal to POST's row. |
| `ConfirmPage.ConfirmedSession` | app/confirmar-agendamento/page.tsx:95-100 | The session after success: `appointmentData` removed, and both phone keys set to the trimmed phone. A definition; `ConfirmPage.ConfirmPage.HandleSubmit` states it. |
| `ConfirmPage.ConfirmPage.HandleSubmit` | app/confirmar-agendamento/page.tsx:71-110 | See below the table. |
| `ConfirmPage.ConfirmRowIsPostRow` | app/confirmar-agendamento/page.tsx:82-90 | The page inserts the same row POST would insert for the same fields. Only the slot check is missing. |
| `ConfirmPage.ConfirmIntoTakenSlotDoubleBooks` | app/confirmar-agendamento/page.tsx:82-90 | Confirming into a slot a scheduled appointment holds breaks the double-booking rule. |
| `ConfirmPage.ConfirmCanDoubleBook` | app/confirmar-agendamento/page.tsx:82-90 | A table exists that satisfies the rule, where the API refuses the slot as taken, yet the page inserts into it and breaks the rule. |
| `MyAppointmentsPage.MyAppointmentsPage.constructor` | app/meus-agendamentos/page.tsx:25-29 | An empty phone field and list, not yet searched, and no new appointment marked. |
| `MyAppointmentsPage.MyAppointmentsPage.IsNewAppointment` | app/meus-agendamentos/page.tsx:191-193 | True exactly for the id consumed from the session. |
| `MyAppointmentsPage.MyAppointmentsPage.AutoSearch` | app/meus-agendamentos/page.tsx:50-75 | The query uses the phone as given. On failure the list is kept. |
| `MyAppointmentsPage.MyAppointmentsPage.Mount` | app/meus-agendamentos/page.tsx:31-48 | See below the table. |
| `MyAppointmentsPage.MyAppointmentsPage.HandleSearch` | app/meus-agendamentos/page.tsx:77-115 | An empty phone or one under ten digits is refused with its alert and no query. Otherwise the list becomes the rows with the typed digits as phone. On failure the list is kept and an alert is shown. |
| `MyAppointmentsPage.MyAppointmentsPage.HandleCancel` | app/meus-agendamentos/page.tsx:117-142 | Without confirmation, nothing changes. A failed update changes nothing and shows an alert. Otherwise the row becomes cancelled in the table and in the list, whatever its status was, and every other row is unchanged. |
| `MyAppointmentsPage.SearchAllowedMeansCompleteNumber` | app/meus-agendamentos/page.tsx:85-88 | A search goes ahead exactly when the mask shows at least ten digits. |
| `MyAppointmentsPage.SearchAllowed` | app/meus-agendamentos/page.tsx:80-88 | The two guards of the search: a non-empty phone of at least ten digits. A definition; `MyAppointmentsPage.SearchAllowedMeansCompleteNumber` characterises it. |
| `MyAppointmentsPage.CanCancel` | app/meus-agendamentos/page.tsx:318 | The Cancel button shows for scheduled rows only. A definition; `MyAppointmentsPage.CancelKeepsNoDoubleBooking` states how a cancel changes it. |
| `MyAppointmentsPage.CancelKeepsNoDoubleBooking` | app/meus-agendamentos/page.tsx:318 | Cancelling keeps the rule. The cancelled row loses its Cancel button and every other row keeps its own. |
| `ProfessionalsRoute.OrNull` | app/api/professionals/route.ts:46-47 | `value \|\| null`: null exactly for the empty string, and the value otherwise. |
| `ProfessionalsRoute.SpecialtiesOrEmpty` | app/api/professionals/route.ts:48 | `specialties \|\| []`. |
| `ProfessionalsRoute.NewProfessional` | app/api/professionals/route.ts:40-51 | The row POST inserts: the defaults above, active. A definition; `ProfessionalsRoute.Post` states it. |
| `ProfessionalsRoute.Updated` | app/api/professionals/route.ts:101-111 | The fields PUT writes, `active` left as it was. A definition; `ProfessionalsRoute.UpdateWhere` states it row by row. |
| `ProfessionalsRoute.Referenced` | app/api/professionals/route.ts:160-167 | Some appointment refers to the professional. A definition; `ProfessionalsRoute.Delete` and `ProfessionalsRoute.DeleteKeepsProfessionalsExist` state what it guards. |
| `ProfessionalsRoute.UpdateWhere` | app/api/professionals/route.ts:101-111 | The update rewrites exactly the rows with the id, leaving `active` as it was. |
| `ProfessionalsRoute.Relations` | app/api/professionals/route.ts:66-69 | One association row per service id, in order, each pointing at the professional. |
| `ProfessionalsRoute.WithoutOwner` | app/api/professionals/route.ts:118-121 | Keeps exactly the associations of other professionals. |
| `ProfessionalsRoute.Post` | app/api/professionals/route.ts:29-85 | See below the table. |
| `ProfessionalsRoute.AddOwned` | app/api/professionals/route.ts:65-73 | Association rows for an issued professional keep every owner issued. |
| `ProfessionalsRoute.Put` | app/api/professionals/route.ts:88-145 | See below the table. |
| `ProfessionalsRoute.WithoutOwnerKeepsIssued` | app/api/professionals/route.ts:118-121 | Deleting associations keeps every remaining owner issued. |
| `ProfessionalsRoute.Delete` | app/api/professionals/route.ts:148-186 | See below the table. |
| `ProfessionalsRoute.AssociationsAppend` | app/api/professionals/route.ts:116-137 | A professional's services over a table's two parts are those of each part, in order. |
| `ProfessionalsRoute.AssociationsOfRelations` | app/api/professionals/route.ts:125-128 | The rows built for a professional give it exactly the listed services, and nobody else any. |
| `ProfessionalsRoute.AssociationsWithoutOwner` | app/api/professionals/route.ts:118-121 | After the delete, the professional has no services and every other professional keeps its own. |
| `ProfessionalsRoute.AssociationsOfAbsent` | app/api/professionals/route.ts:65-73 | A professional no row points at has no services. |
| `ProfessionalsRoute.PutReplacesAssociations` | app/api/professionals/route.ts:116-137 | After a PUT whose delete and insert succeed, the professional's services are exactly the list sent, and everyone else's are unchanged. |
| `ProfessionalsRoute.PutFailedInsertLeavesNone` | app/api/professionals/route.ts:130-136 | If the insert fails after the delete, the professional has no services at all. |
| `ProfessionalsRoute.PostAssociations` | app/api/professionals/route.ts:65-73 | A new professional gets exactly the services sent, and everyone else's are unchanged. |
| `ProfessionalsRoute.DeleteKeepsProfessionalsExist` | app/api/professionals/route.ts:160-177 | Deleting a professional no appointment refers to keeps every appointment's professional in the table. |
| `ProfessionalsRoute.FailedGuardOrphansAppointments` | app/api/professionals/route.ts:161-167 | The guard's error is not checked. A professional with appointments can therefore be deleted, leaving those appointments pointing at nobody. |
| `ManageAdminsRoute.RoleOrDefault` | app/api/admin/manage-admins/route.ts:76 | `role \|\| "admin"`: never empty, and the role given when there is one. |
| `ManageAdminsRoute.CreatesProfessional` | app/api/admin/manage-admins/route.ts:47 | The test for creating a professional: role sent exactly `admin`, and no professional given. A definition; `ManageAdminsRoute.MissingRoleLeavesAdminUnlinked` proves a missing role fails it. |
| `ManageAdminsRoute.AutoProfessional` | app/api/admin/manage-admins/route.ts:49-57 | The professional created for a plain admin. A definition; `ManageAdminsRoute.AutoCreatedProfessionalIsLinked` states its name and email. |
| `ManageAdminsRoute.NewAdmin` | app/api/admin/manage-admins/route.ts:70-80 | The admin row stored. A definition; `ManageAdminsRoute.Post` and the two lemmas after it state its role and link. |
| `ManageAdminsRoute.Post` | app/api/admin/manage-admins/route.ts:28-97 | See below the table. |
| `ManageAdminsRoute.InsertProfessional` | app/api/admin/manage-admins/route.ts:49-67 | The automatic professional is appended under the next id. |
| `ManageAdminsRoute.InsertAdmin` | app/api/admin/manage-admins/route.ts:70-80 | The admin row is appended under the next id. |
| `ManageAdminsRoute.Delete` | app/api/admin/manage-admins/route.ts:100-121 | A missing id gives 400 and a failure gives 500, each with the table unchanged. Otherwise 200, with exactly the admins of other ids kept. |
| `ManageAdminsRoute.Patch` | app/api/admin/manage-admins/route.ts:124-152 | A missing id or action gives 400 "ID do agendamento e ação são obrigatórios". An action other than `delete` gives 400 "Ação inválida". A failed delete gives 500. Each of these leaves the table unchanged. Otherwise 200, with the appointment removed. |
| `ManageAdminsRoute.MissingRoleLeavesAdminUnlinked` | app/api/admin/manage-admins/route.ts:47-77 | An admin created with no role and no professional gets no professional. It is stored as a plain admin linked to none. |
| `ManageAdminsRoute.AutoCreatedProfessionalIsLinked` | app/api/admin/manage-admins/route.ts:47-68 | A plain admin created without a professional is linked to the one created for it. That professional carries the admin's name and email. |
| `ManageAdminsRoute.DeleteKeepsNoDoubleBooking` | app/api/admin/manage-admins/route.ts:136-140 | Deleting appointments keeps the double-booking rule. |
| `AdminReport.CountStatus` | app/admin/page.tsx:306-311 | `filter(status).length` is at most the number of rows. |
| `AdminReport.StatusCountsBounded` | app/admin/page.tsx:306-311 | The cancelled and completed counts add up to at most the number of rows. |
| `AdminReport.PriceOf` | app/admin/page.tsx:316 | `apt.service?.price \|\| 0`. A definition; `AdminReport.ServiceContributions` uses it for the value. |
| `AdminReport.CompletedRevenue` | app/admin/page.tsx:313-316 | The sum of the prices of the completed rows. A definition; `AdminReport.ServiceTallyMatchesTotals` proves the service values add up to it. |
| `AdminReport.ServiceKey` | app/admin/page.tsx:323 | The service name, empty when there is none, in which case the row is skipped. A definition; `AdminReport.ServiceContributions` states it. |
| `AdminReport.FirstSeenMembers` | app/admin/page.tsx:319-332 | The object's keys are each non-empty key once, and no other. |
| `AdminReport.StatsOfKeys` | app/admin/page.tsx:322-326 | The tally object has exactly the groups seen. |
| `AdminReport.StatsOfTotals` | app/admin/page.tsx:322-332 | Each group holds its count over all statuses and its value over completed rows only. |
| `AdminReport.Tally` | app/admin/page.tsx:319-335 | The `forEach` tally loop and `Object.entries` give exactly the specified entries. Each group appears once, in first-seen order, with its count and value. |
| `AdminReport.FirstSeenSnoc` | app/admin/page.tsx:324-326 | A new key is appended at the end. A key already present or empty changes nothing. |
| `AdminReport.TotalOfAbsentKey` | app/admin/page.tsx:324-325 | A group nobody contributed to totals zero. |
| `AdminReport.SumOverSnoc` | app/admin/page.tsx:327-330 | One more row adds its amount to the sum over distinct groups exactly when its group is among them. |
| `AdminReport.TallyAddsUp` | app/admin/page.tsx:322-332 | The counts, or the values, of all groups add up to the amounts of all grouped rows. |
| `AdminReport.Ranked` | app/admin/page.tsx:334-336 | The ranking is a permutation of the entries, with counts in descending order. |
| `AdminReport.MoreUsed` | app/admin/page.tsx:336 | `b.count - a.count`: a higher count comes first. A definition; `AdminReport.Ranked` states the order it gives. |
| `AdminReport.MostUsedList` | app/admin/page.tsx:338 | `slice(0, 5)` has at most five groups, exactly five when there are that many. Each is used at least as often as any group left out. |
| `AdminReport.MostUsed` | app/admin/page.tsx:338 | `slice(0, 5)`. A definition; `AdminReport.MostUsedList` proves its properties. |
| `AdminReport.LeastUsedList` | app/admin/page.tsx:339 | `slice(-5).reverse()` has at most five groups, exactly five when there are that many, least used first. None is used more than a group left out. |
| `AdminReport.LeastUsed` | app/admin/page.tsx:339 | `slice(-5).reverse()`. A definition; `AdminReport.LeastUsedList` and `AdminReport.LeastUsedAt` prove its properties. |
| `AdminReport.LeastUsedOfRanked` | app/admin/page.tsx:339 | The same facts for any list ranked by count. |
| `AdminReport.LeastUsedAt` | app/admin/page.tsx:339 | The least-used list is the ranking read from its end. |
| `AdminReport.ServiceContributions` | app/admin/page.tsx:322-331 | Each row contributes its service name, or is skipped without one, with its completion and its price, where a missing price counts 0. |
| `AdminReport.MonthlyReport` | app/admin/page.tsx:306-347 | The report holds the cancelled and completed counts, the completed revenue, and the two rankings of the service tally. |
| `AdminReport.ServiceTallyMatchesTotals` | app/admin/page.tsx:313-332 | When every row has a named service, the service counts add up to the number of rows and the service values to the revenue. |
| `AdminReport.GroupedMatchesRows` | app/admin/page.tsx:313-332 | With every row grouped, the grouped count is the number of rows and the grouped value is the revenue. |
| `AdminReport.ProfessionalKey` | app/admin/page.tsx:401-402 | The professional's name, or "Profissional não identificado". Never empty. |
| `AdminReport.DetailContributions` | app/admin/page.tsx:392-410 | Only rows of the service contribute, each under its professional. |
| `AdminReport.ServiceDetail` | app/admin/page.tsx:392-417 | The service's rows are grouped by professional and ranked by count. |
| `AdminReport.ServiceDetailCountsEveryRow` | app/admin/page.tsx:392-410 | Every appointment of the service is counted under exactly one professional. |
| `AdminReport.DetailGroupedCount` | app/admin/page.tsx:392-410 | The grouped count of the detail is the number of rows of the service. |
| `AdminReport.MonthKey` | app/admin/page.tsx:259-261 | The `YYYY-MM` key is non-empty. |
| `AdminReport.MonthKeyRoundTrip` | app/admin/page.tsx:273-283 | The key of a date reads back, through `split("-")` and `parseInt`, as its year and month. |
| `AdminReport.ReadMonthKey` | app/admin/page.tsx:273 | A key of two digit parts reads as those two numbers. |
| `AdminReport.ParseMonthKey` | app/admin/page.tsx:273-276 | `split("-")` and `parseInt` of both parts, read strictly as digits. A definition; `AdminReport.MonthKeyRoundTrip` and `AdminReport.ReadMonthKey` prove its properties. |
| `AdminReport.MonthKeys` | app/admin/page.tsx:257-263 | One key per row, in row order. |
| `AdminReport.SortedKeys` | app/admin/page.tsx:265 | `Array.from(set).sort()` holds exactly the keys, in strictly ascending order. |
| `AdminReport.AscendingKeys` | app/admin/page.tsx:265 | `Array.from(months).sort()`. A definition; `AdminReport.SortedKeys` proves its properties. |
| `AdminReport.NewestFirst` | app/admin/page.tsx:265 | `.reverse()` of the sorted keys. A definition; `AdminReport.NewestFirstMembers` and `AdminReport.NewestFirstOrder` prove its properties. |
| `AdminReport.MonthsOf` | app/admin/page.tsx:256-265 | The month list built from the rows' dates. A definition; `AdminReport.MonthsOfDescending` proves its properties, and `AdminReport.AvailableMonths` computes it. |
| `AdminReport.NewestFirstMembers` | app/admin/page.tsx:265 | After `reverse()`, the keys are still exactly the keys given. |
| `AdminReport.NewestFirstOrder` | app/admin/page.tsx:265 | After `reverse()`, the keys are in strictly descending order. |
| `AdminReport.ReverseOfAscending` | app/admin/page.tsx:265 | Reversing a strictly ascending list gives a strictly descending one. |
| `AdminReport.ReverseMembers` | app/admin/page.tsx:265 | Reversing keeps exactly the same elements. |
| `AdminReport.MonthsOfDescending` | app/admin/page.tsx:256-265 | The available months are exactly the rows' month keys, each once, newest first. |
| `AdminReport.FirstSeenPrefix` | app/admin/page.tsx:257-263 | Reading one more key adds it to the `Set` exactly when it is new. |
| `AdminReport.AvailableMonths` | app/admin/page.tsx:256-265 | The `forEach` that fills the `Set`, then sort and reverse, gives exactly the specified month list. |
| `AdminPage.VisibleTo` | app/admin/page.tsx:497-499 | The rows an admin may see, in table order. A plain admin linked to a professional sees exactly that professional's rows. Everyone else sees all rows. |
| `AdminPage.Restriction` | app/admin/page.tsx:248 | The professional the filter restricts to: given for a plain admin with a professional, none otherwise. A definition; `AdminPage.VisibleTo` states its effect. |
| `AdminPage.Sees` | app/admin/page.tsx:497-499 | Whether a row passes the admin's filter. A definition; `AdminPage.VisibleTo` states it. |
| `AdminPage.UnrestrictedSeesAll` | app/admin/page.tsx:248-250 | An unrestricted admin gets the whole table, in its order. |
| `AdminPage.RoleLessAdminSeesEverything` | app/admin/page.tsx:297-300 | An admin created with no role sees every professional's appointments. |
| `AdminPage.AutoLinkedAdminSeesOwnRows` | app/admin/page.tsx:383-385 | A plain admin created with its own professional sees exactly that professional's appointments. |
| `AdminPage.MenuItems` | app/admin/page.tsx:200-213 | The admins and professionals tabs are present exactly for a super admin. Appointments and reports come first and services last. The tab ids are distinct. |
| `AdminPage.TrimmedNonEmpty` | app/admin/page.tsx:662-663 | `map(trim).filter(s => s)`: every entry is non-empty and trimmed, and the list is no longer than the input. |
| `AdminPage.TrimmedNonEmptyAvoids` | app/admin/page.tsx:662-663 | A character absent from every piece is absent from every entry. |
| `AdminPage.ParseSpecialties` | app/admin/page.tsx:660-663 | Every specialty sent is non-empty, trimmed and free of commas. |
| `AdminPage.JoinSpaced` | app/admin/page.tsx:883 | `join(", ")` is `join(",")` with a space before every entry but the first. |
| `AdminPage.SpecialtiesText` | app/admin/page.tsx:883 | The edit field's text, `specialties.join(", ")`. A definition; `AdminPage.SpecialtiesRoundTrip` proves saving it unchanged gives the list back. |
| `AdminPage.TrimmedSpaced` | app/admin/page.tsx:662-663 | Trimming and filtering undoes the spaces added to non-empty, trimmed entries. |
| `AdminPage.SpecialtiesRoundTrip` | app/admin/page.tsx:883 | Opening a professional for editing and saving unchanged sends the same specialties, when each is non-empty, trimmed and comma-free. |
| `AdminPage.SpecialtiesStable` | app/admin/page.tsx:700-703 | Saving a second time without touching the field sends what the first save sent. |
| `AdminPage.ServiceOf` | app/admin/page.tsx:290 | The service join is absent exactly when no service has the id. Otherwise it holds that service's name and price. |
| `AdminPage.ProfessionalNameOf` | app/admin/page.tsx:291 | The professional join is absent exactly when no professional has the id. Otherwise it holds that professional's name. |
| `AdminPage.InMonthRows` | app/admin/page.tsx:294-295 | The date range keeps exactly the rows of the month. |
| `AdminPage.DatesOf` | app/admin/page.tsx:244 | `select("appointment_date")`: one date per row, in order. |
| `AdminPage.MonthRangeMatchesKey` | app/admin/page.tsx:273-295 | A month's key reads back as its year and month. The range for that month picks exactly the rows with that month key. |
| `AdminPage.OfferedMonthIsNotEmpty` | app/admin/page.tsx:256-295 | Every month the panel offers reads as a year and a month, and its report covers at least one appointment the admin sees. |
| `AdminPage.InSlotOrder` | app/admin/page.tsx:493-494 | The list is a permutation of the rows, ordered by date and then time. |
| `AdminPage.StatusUpdateKeepsListInSync` | app/admin/page.tsx:951-955 | The local `map` gives the same list a fresh query would return after the status change. |
| `AdminPage.SortWithStatus` | app/admin/page.tsx:951-955 | Changing a status commutes with the slot-order sort. |
| `AdminPage.VisibleWithStatus` | app/admin/page.tsx:951-955 | Changing a status commutes with the admin's filter. |
| `AdminPage.DeleteKeepsListInSync` | app/admin/page.tsx:640 | The local `filter` gives the same list a fresh query would return after the delete. |
| `AdminPage.SortWithoutId` | app/admin/page.tsx:640 | Deleting by id commutes with the slot-order sort. |
| `AdminPage.VisibleWithoutId` | app/admin/page.tsx:640 | Deleting by id commutes with the admin's filter. |
| `AdminPage.AdminPage.constructor` | app/admin/page.tsx:131-160 | No admin, the given month selected, and empty lists, report and detail. |
| `AdminPage.AdminPage.FetchAppointments` | app/admin/page.tsx:482-508 | The list becomes the rows the admin may see, in slot order. On failure it is kept. |
| `AdminPage.AdminPage.FetchAvailableMonths` | app/admin/page.tsx:240-269 | The months become those of the rows the admin may see, newest first. On failure they are kept. |
| `AdminPage.AdminPage.FetchMonthlyReport` | app/admin/page.tsx:271-351 | For a key that reads as a year and a month, the report describes the month's visible rows. A failed query or an unreadable key keeps the report. |
| `AdminPage.AdminPage.FetchServiceProfessionalDetail` | app/admin/page.tsx:353-426 | The detail is the service's professionals, ranked, for the current admin's rows of the month. A failure keeps it. |
| `AdminPage.AdminPage.Mount` | app/admin/page.tsx:215-232 | With an admin stored in the session, the page remembers it and loads the list, the months and the report. Each load is as specified, and each is kept on its own failure. |
| `AdminPage.AdminPage.SelectMonth` | app/admin/page.tsx:234-238 | The selected month becomes the one chosen. The report effect depends on `selectedMonth`, so it runs only when the month chosen differs from the one selected (the selector at app/admin/page.tsx:1158 calls `setSelectedMonth`). In that case, for a current admin, the report is reloaded for the new month. Choosing the month already selected keeps the old report, even if rows changed since. |
| `AdminPage.AdminPage.UpdateAppointmentStatus` | app/admin/page.tsx:938-965 | The row's status changes in the table and in the list, and the report is reloaded. A list in step with the table stays in step. A failure changes nothing and shows the alert. |
| `AdminPage.AdminPage.SetStatus` | app/admin/page.tsx:943-955 | The status changes in the table and in the list, keeping them in step. |
| `AdminPage.AdminPage.DeleteAppointment` | app/admin/page.tsx:621-646 | See below the table. |
| `AdminPage.ErrorText` | app/admin/page.tsx:636 | `data.error \|\| fallback`. A definition; `AdminPage.AdminPage.DeleteAppointment` states the alert. |

The longer contracts, in full:

- `AppointmentsRoute.Post`:
  - A missing field gives 400.
  - A lookup error other than "no single row" gives 500.
  - A taken slot gives 400 "Este horário já está ocupado".
  - A failed insert gives 500.
  - Each of these leaves the table unchanged.
  - Otherwise exactly one row is appended, with a fresh id and status `scheduled`. Its name and phone are trimmed and its other fields are copied. The answer is 201 with that row.
- `ConfirmPage.ConfirmPage.HandleSubmit`:
  - With no slot, or a blank name or phone, the page alerts and changes nothing.
  - An insert error alerts and changes no session key.
  - Otherwise the page inserts the row with no slot check. It removes `appointmentData`, sets `searchPhone` and `lastAppointmentPhone` to the trimmed phone, and redirects to the confirmation page.
- `MyAppointmentsPage.MyAppointmentsPage.Mount`:
  - A stored `searchPhone` is put in the phone field, removed from the session, and searched for.
  - `newAppointmentId` is consumed only when `searchPhone` is present.
  - Without `searchPhone`, nothing changes.
- `ProfessionalsRoute.Post`:
  - A missing name gives 400.
  - A duplicate email (error code 23505) gives 400 "Email já está em uso", and any other error gives 500. Each leaves the tables unchanged.
  - Otherwise one row is created, active, with email and phone null when empty and specialties `[]` when missing.
  - One association row is added per service id. If their insert fails, that is only logged.
- `ProfessionalsRoute.Put`:
  - A missing id or name gives 400.
  - A failed update or an unknown id gives 500. Each leaves the tables unchanged.
  - Otherwise the row is updated and returned.
  - With a `serviceIds` list, the old associations are deleted first, unless that delete fails. The new ones are then inserted, unless that insert fails.
  - Without `serviceIds`, the associations are unchanged.
  - With `serviceIds: null`, the row is still updated and the old associations are still deleted, unless that delete fails. Reading the list's length then throws, so the answer is 500. `ProfessionalsRoute.AssociationsWithoutOwner` shows the professional is then left with no services.
- `ProfessionalsRoute.Delete`:
  - A missing id gives 400.
  - An existing appointment of the professional gives 400, unless the guard's query fails.
  - A failed delete gives 500.
  - Otherwise 200, with exactly the professionals of other ids kept.
- `ManageAdminsRoute.Post`:
  - A missing email, password or name gives 400, with nothing inserted.
  - With role exactly `admin` and no professional given, a professional is created with the admin's name and email. A failure there gives 500 before the admin is inserted.
  - The admin row stores the role, or `admin` if none is given, and the linked professional or null.
  - A duplicate email gives 400, and another error gives 500.
  - Success gives 201.
- `AdminPage.AdminPage.DeleteAppointment`:
  - Without confirmation, nothing changes.
  - Otherwise the page sends the manage-admins PATCH with the `delete` action. A non-2xx answer shows the route's error text.
  - On success the row leaves the table and the list, and a list in step with the table stays in step.

## Left out

- The login route, `generate-hash.ts`, and bcrypt hashing and comparison are foreign calls. A password hash is a parameter of the admin POST.
- The page that builds the time-slot grid (`/agendar/[serviceId]`) is not part of this model. So are the pages that only render: the booking confirmation page, the header, the footer, quick search, and recent appointments. Dialogs, charts, themes, date labels, money formatting and the sidebar are left out too.
- Dates, times and time zones:
  - Dates are `(year, month, day)` values and times are `(hour, minute)` values, compared field by field as Postgres compares them.
  - "Today" and creation timestamps are parameters.
  - The month key and the report's date range are taken in the calendar of the stored date. The source builds them with `new Date(...)`, `getMonth()` and `toISOString()`, which can shift a day or a month across time zones. That shift is not modelled.
  - A month number outside 1..12 rolls over in `new Date(y, m, 1)`. The model instead selects rows whose month equals it, so the report is empty.
- Prices are integers in cents, where the source uses JavaScript numbers. Floating-point rounding is not modelled.
- Concurrency: the handlers run one after another. The race between POST's slot lookup and its insert is not modelled.
- The client library's HTTP plumbing and `fetch` are not modelled. Each table is a sequence, and each response is a status with a payload.
- Join payloads: `service:services(*)` and `professional:professionals(*)` are modelled only where the code reads them. The report rows carry the service name and price and the professional name. Elsewhere the rows carry the ids only.
- The order the database gives to rows that tie on `order by` is not specified. The model keeps such rows in insertion order, because the sort is stable.
- Database string collation is left out. `order("name")` and JavaScript's `sort()` both compare strings by character code here.
- `Object.entries` lists integer-like keys first, in numeric order. The model keeps every key in insertion order.
- The two report tallies are plain `{}` objects, which inherit from `Object.prototype`. A service or professional named like an inherited member (`constructor`, `toString`, `__proto__`) finds a truthy value on the first lookup. It never gets an entry of its own, so `Object.entries` leaves it out, and `__proto__` writes into the prototype. The model counts such a name like any other.
- `serviceIds` in a professionals body is modelled as left out, `null`, or a list. Other JSON values, such as a string or a number, are not modelled.
- Schema rules the handlers do not state are left out: foreign-key cascades, `NOT NULL` constraints, and which columns are unique. Their failures arrive as the error-code or failure parameters of each handler.
- The session value `adminAuth` is the JSON of an admin. The admin page receives it already parsed, as a parameter.
- The admin page's fetches of admins, professionals and services, and its create and edit forms, are not modelled. They call the routes modelled here. Only their specialties parsing is modelled.
- The GET handlers of `/api/professionals` and `/api/admin/manage-admins` are outside the named core.
- `AdminPage.AdminPage.FetchMonthlyReport`: the model reads a month key only when it splits on `-` into exactly two parts, both all digits. The source destructures only the first two parts, so a key like `2025-03-01` still loads March there. `parseInt` would also accept a part with trailing junk, such as `2025-03x`. A key with no leading digits gives `NaN`, and the date range then throws, which the model keeps as "report unchanged".
- `AdminPage.AdminPage.FetchServiceProfessionalDetail` reads the month key the same way.
- `HomePage.AutoCompletePastAppointments` is one `update` statement in the source. The model walks the table row by row with the same all-or-nothing result.
- `Display.FormatDuration` takes integer minutes. Fractional minutes are not modelled.
