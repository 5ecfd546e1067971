# Edu — verified model of the school-management front end's core logic

This project models in Dafny the core of the Edu school-management system:

- **The realtime collection hook of the main application.** It keeps a snapshot of one table in step with the store's change feed, applies an optional equality filter to the INSERT events of the feed, and makes optimistic add/update/delete calls. Each call either reconciles with the store's reply or rolls back.
- **The simpler realtime hook of the `frontend` application.** It builds a filtered, ordered and limited select, and applies the change feed without a filter.
- **The dashboard data table.** It runs a case-insensitive search over string and number fields, then paginates the result with previous, next and numbered page buttons.
- **The dashboard layout's sidebar.** It filters the navigation entries by role, highlights the active entry and keeps an open/closed flag.
- **The two route guards.** The main application's guard matches paths by prefix and adds a redirect parameter. The basic front end's guard matches public paths exactly.
- **Four text and date helpers:** `truncateText`, `getInitials`, `generateAdmissionNumber` and `calculateAge`.
- **The students API's request validation.** This covers the decorator rules of the create and update DTOs, run under a global pipe that rejects undeclared properties.

How the model represents the system:

- A row is a map from field names to JavaScript values. A missing field is `None`, which stands for `undefined`.
- Each call to the store is one atomic step. The store's reply is a parameter, and so are the clock readings and the random number.
- Where the source keeps mutable state, the model is a class whose methods state the new state in terms of pure functions. These are the hooks' `data`/`loading`/`error`, the table's current page and query, and the sidebar flag. The lemmas are proved about those pure functions.

## Model

| member | source | states |
|---|---|---|
| Snapshot.MapById | src/lib/hooks/use-realtime-data.ts:92-96 | `map` over the snapshot keeps its length |
| Snapshot.MapByIdAt | src/lib/hooks/use-realtime-data.ts:164-168 | position by position, a row with the id is edited and every other row is kept |
| Snapshot.MapByIdAbsent | src/lib/hooks/use-realtime-data.ts:183-187 | an edit keyed on an id no row carries leaves the snapshot unchanged |
| Snapshot.MapByIdAppend | src/lib/hooks/use-realtime-data.ts:138-142 | editing by id distributes over concatenation |
| Snapshot.MapByIdThenReplace | src/lib/hooks/use-realtime-data.ts:164-187 | when the first edit keeps the id, replacing afterwards gives the same result as replacing directly |
| Snapshot.ReplaceBySelf | src/lib/hooks/use-realtime-data.ts:195-199 | replacing every row that has the id by a row they all equal changes nothing |
| Snapshot.RemoveById | src/lib/hooks/use-realtime-data.ts:97-100 | `filter(item.id !== id)` never grows the snapshot and leaves no row with the id |
| Snapshot.RemoveByIdExactly | src/lib/hooks/use-realtime-data.ts:215-217 | the result is an order-preserving subsequence; every row without the id keeps its multiplicity and rows with it are gone |
| Snapshot.RemoveByIdAppend | src/lib/hooks/use-realtime-data.ts:147-149 | removal by id distributes over concatenation |
| Snapshot.RemoveByIdAbsent | src/lib/hooks/use-realtime-data.ts:147-149 | removing an id no row carries changes nothing |
| Snapshot.RemoveByIdSingle | src/lib/hooks/use-realtime-data.ts:215-217 | removing the id of the single row that carries it leaves the rows before and after it |
| Snapshot.FindById | src/lib/hooks/use-realtime-data.ts:161 | `find` is undefined exactly when no row has the id; otherwise it returns a row of the snapshot with that id |
| Snapshot.FindByIdFirst | src/lib/hooks/use-realtime-data.ts:212 | `find` returns the first row with the id |
| Snapshot.EqFilter | src/lib/hooks/use-realtime-data.ts:51-53 | the equality filter exists exactly when the column is non-empty and the value defined, and then it is that pair |
| Snapshot.ApplyChange | src/lib/hooks/use-realtime-data.ts:80-102 | an INSERT leaves the snapshot alone or appends the new row; an UPDATE keeps the length; a DELETE never grows the snapshot and leaves no row with the old row's id |
| Snapshot.InsertEventAppendsIfMatching | src/lib/hooks/use-realtime-data.ts:82-90 | an INSERT appends the new row at the end when there is no filter or the row's field equals the filter value, and otherwise changes nothing |
| Snapshot.UpdateEventReplacesInPlace | src/lib/hooks/use-realtime-data.ts:91-96 | whatever the hook's filter, an UPDATE keeps length and order, puts the new row exactly where the id matched, and is a no-op for an unknown id |
| Snapshot.DeleteEventRemovesExactly | src/lib/hooks/use-realtime-data.ts:97-100 | whatever the hook's filter, a DELETE removes exactly the rows carrying the old row's id and keeps the others in order |
| RealtimeHook.TempId | src/lib/hooks/use-realtime-data.ts:121 | the temporary id is `temp-` followed by digits that read back as the clock reading |
| RealtimeHook.TempIdInjective | src/lib/hooks/use-realtime-data.ts:121 | two temporary ids are equal exactly when the clock readings are |
| RealtimeHook.Placeholder | src/lib/hooks/use-realtime-data.ts:122 | the optimistic row has exactly the new item's fields plus `id`, holding the temporary id, with every other field kept |
| RealtimeHook.RealtimeData.constructor | src/lib/hooks/use-realtime-data.ts:31-40 | the hook starts with the initial data (empty by default), loading, and no error |
| RealtimeHook.RealtimeData.FetchData | src/lib/hooks/use-realtime-data.ts:46-68 | the select carries `.eq` exactly when filter and value are given; on success the rows replace the snapshot, on failure the error is stored; loading ends in both cases |
| RealtimeHook.RealtimeData.OnChange | src/lib/hooks/use-realtime-data.ts:80-102 | the snapshot after an event is the filtered change of the event |
| RealtimeHook.RealtimeData.AddItem | src/lib/hooks/use-realtime-data.ts:118-155 | as written: appends the placeholder; on success it replaces rows with the temporary id by the inserted row and resolves with it; on failure it removes rows keyed on a second clock reading, stores the error and rejects |
| RealtimeHook.RealtimeData.AddItemFixed | src/lib/hooks/use-realtime-data.ts:118-155 | with the rollback keyed on the id it created: a failed add restores the snapshot, a successful one ends with the old rows plus the inserted row |
| RealtimeHook.RealtimeData.UpdateItem | src/lib/hooks/use-realtime-data.ts:158-206 | merges the updates into matching rows; then either replaces them by the server row and resolves, or sets them back to the row found before the call (if any), stores the error and rejects |
| RealtimeHook.RealtimeData.DeleteItem | src/lib/hooks/use-realtime-data.ts:209-242 | removes matching rows; resolves with true on success, or appends the remembered row (if any), stores the error and rejects |
| RealtimeHook.AddSuccessReplacesPlaceholderOnce | src/lib/hooks/use-realtime-data.ts:121-142 | when no row had the temporary id, a successful add ends with the old snapshot plus the inserted row |
| RealtimeHook.RollbackRemovesPlaceholderIff | src/lib/hooks/use-realtime-data.ts:146-149 | the add rollback restores the snapshot if and only if the second clock reading equals the first; otherwise the placeholder stays |
| RealtimeHook.UpdateSuccessSetsServerRow | src/lib/hooks/use-realtime-data.ts:164-187 | when the updates keep the id, a successful update equals replacing the matching rows by the server row directly |
| RealtimeHook.MergeKeepsId | src/lib/hooks/use-realtime-data.ts:164-168 | merging updates that keep the id leaves every matching row with the id |
| RealtimeHook.UpdateRollbackRestores | src/lib/hooks/use-realtime-data.ts:190-200 | a failed update restores the snapshot when the updates keep the id and every row with it equals the one found |
| RealtimeHook.UpdateRollbackMissesRenamedRow | src/lib/hooks/use-realtime-data.ts:190-200 | when the updates change the id, the rollback does not find the merged row and leaves it merged |
| RealtimeHook.DeleteRollbackMovesRowToEnd | src/lib/hooks/use-realtime-data.ts:230-236 | a failed delete of the single row with the id brings it back with the same rows (multiset) but at the end |
| FrontendRealtimeHook.BuildQuery | frontend/src/lib/hooks/use-realtime-data.ts:34-48 | `.eq` iff column non-empty and value defined; `.order` iff orderBy is given, ascending unless it says false; `.limit` iff the limit is given and non-zero |
| FrontendRealtimeHook.RealtimeData.constructor | frontend/src/lib/hooks/use-realtime-data.ts:22-24 | the hook starts with an empty snapshot, loading, and no error |
| FrontendRealtimeHook.RealtimeData.FetchData | frontend/src/lib/hooks/use-realtime-data.ts:30-63 | issues the select BuildQuery builds: `.eq(column, value)` iff both are given, `.order(column, ascending ?? true)` iff orderBy is given, `.limit(n)` iff n is given and non-zero; the rows replace the snapshot or the error is stored; loading ends in both cases |
| FrontendRealtimeHook.RealtimeData.OnChange | frontend/src/lib/hooks/use-realtime-data.ts:77-91 | events are applied without any filter: an INSERT always appends the new row |
| DataTable.SearchKeepsExactlyMatchingRows | frontend/src/components/dashboard/data-table.tsx:34-46 | without search the data is shown as given; with search exactly the matching rows stay, with their multiplicities, in order |
| DataTable.EmptyQueryKeepsTextOrNumberRows | frontend/src/components/dashboard/data-table.tsx:36-44 | the empty query keeps exactly the rows with at least one string or number field |
| DataTable.StringSearchIgnoresCase | frontend/src/components/dashboard/data-table.tsx:37-39 | lower-casing the query or the field does not change whether a string field matches |
| DataTable.ValueMatches | frontend/src/components/dashboard/data-table.tsx:36-44 | only string and number fields can match, and every such field matches the empty query |
| DataTable.ItemMatches | frontend/src/components/dashboard/data-table.tsx:36 | a row matches only through one of its string or number fields |
| DataTable.FilteredData | frontend/src/components/dashboard/data-table.tsx:34-46 | the filtered rows are never more than the data, and when searchable every one of them matches the query |
| DataTable.TotalPages | frontend/src/components/dashboard/data-table.tsx:49 | the page count is the least number of pages of `pageSize` rows that hold all rows; zero exactly when there are no rows |
| DataTable.PageItems | frontend/src/components/dashboard/data-table.tsx:50-52 | a page holds at most `pageSize` rows |
| DataTable.StartIndex | frontend/src/components/dashboard/data-table.tsx:50 | `startIndex`; `StartIndexCountsEarlierPages` states that it counts the rows of the earlier pages |
| DataTable.StartIndexCountsEarlierPages | frontend/src/components/dashboard/data-table.tsx:50-52 | the rows before a page's start index are exactly pages 1 to page − 1, and that page follows them |
| DataTable.PageRowsComeFromData | frontend/src/components/dashboard/data-table.tsx:34-52 | each row on a page is a row of the data and, with search on, matches the query; a page holds at most `pageSize` rows |
| DataTable.FirstPagesArePrefix | frontend/src/components/dashboard/data-table.tsx:50-52 | pages 1 to n concatenated are the first n·pageSize rows |
| DataTable.PagesRebuildFilteredRows | frontend/src/components/dashboard/data-table.tsx:49-52 | pages 1 to totalPages concatenated give back all filtered rows, so no row is lost or repeated |
| DataTable.ShowingMatchesPage | frontend/src/components/dashboard/data-table.tsx:129-134 | for an existing page, "Showing from-to of total" counts within 1..total and names exactly the page's rows |
| DataTable.ShowingRange | frontend/src/components/dashboard/data-table.tsx:132-134 | the line starts at startIndex + 1, its total is the filtered count and its end never exceeds it |
| DataTable.ControlsShown | frontend/src/components/dashboard/data-table.tsx:129 | `totalPages > 1`; `ControlsShownIffMoreThanOnePage` states when it holds |
| DataTable.ControlsShownIffMoreThanOnePage | frontend/src/components/dashboard/data-table.tsx:129 | with `totalPages` as computed at line 49, the controls appear exactly when there are more rows than one page holds |
| DataTable.DataTableView.constructor | frontend/src/components/dashboard/data-table.tsx:22-31 | page size defaults to 5 and search to off; the table starts on page 1 with an empty query |
| DataTable.DataTableView.Visible | frontend/src/components/dashboard/data-table.tsx:52 | `paginatedData`: at most a page of rows, each a row of the data and, with search on, matching the query |
| DataTable.DataTableView.OnSearchInput | frontend/src/components/dashboard/data-table.tsx:71-74 | typing stores the query and returns to page 1 |
| DataTable.DataTableView.ClickPrevious | frontend/src/components/dashboard/data-table.tsx:137-144 | goes back one page unless on page 1 or the controls are hidden |
| DataTable.DataTableView.ClickNext | frontend/src/components/dashboard/data-table.tsx:163-170 | goes forward one page unless on the last page or the controls are hidden |
| DataTable.DataTableView.ClickPage | frontend/src/components/dashboard/data-table.tsx:146-161 | a numbered button sets that page |
| DashboardNav.FilteredNavItemsByRole | src/components/layouts/dashboard-layout.tsx:98-100 | an entry is shown exactly when the role is empty or listed on it, and the entries keep the table's order |
| DashboardNav.FilteredNavItems | src/components/layouts/dashboard-layout.tsx:98-100 | at most the seven entries are shown, each one visible to the role |
| DashboardNav.Shown | src/components/layouts/dashboard-layout.tsx:99 | the filter callback; `ShownByRole` states it per role |
| DashboardNav.ShownByRole | src/components/layouts/dashboard-layout.tsx:99 | without a role, or with the empty one, every entry is shown; a non-empty role sees exactly the entries that list it |
| DashboardNav.IsActive | src/components/layouts/dashboard-layout.tsx:149 | an entry is highlighted when the path equals its href (AtMostOneActive states the consequence) |
| DashboardNav.NoRoleSeesEverything | src/components/layouts/dashboard-layout.tsx:53-100 | without a role all seven entries are shown in order |
| DashboardNav.AdminSeesEverything | src/components/layouts/dashboard-layout.tsx:53-100 | `admin` is on every entry and sees the whole table |
| DashboardNav.DashboardForAllSettingsForAdmin | src/components/layouts/dashboard-layout.tsx:53-100 | every named role sees Dashboard; only `admin` sees Settings |
| DashboardNav.UnknownRoleSeesNothing | src/components/layouts/dashboard-layout.tsx:53-100 | a non-empty role outside the five named ones sees no entry |
| DashboardNav.AtMostOneActive | src/components/layouts/dashboard-layout.tsx:149 | hrefs are distinct, so at most one entry is highlighted |
| DashboardNav.Sidebar.constructor | src/components/layouts/dashboard-layout.tsx:45 | the sidebar starts closed |
| DashboardNav.Sidebar.ToggleSidebar | src/components/layouts/dashboard-layout.tsx:49-51 | toggling flips the open flag |
| RouteGuard.Decide | src/middleware.ts:13-41 | without a session a protected path redirects to login carrying the path; with one, auth pages and `/` redirect to the dashboard; everything else passes |
| RouteGuard.IsProtectedRoute | src/middleware.ts:13-19 | a path is protected exactly when it starts with `/dashboard`, `/students`, `/academics`, `/timetable`, `/exams`, `/finance` or `/settings` |
| RouteGuard.IsAuthRoute | src/middleware.ts:22 | a path is an authentication page exactly when it starts with `/login` or `/register` |
| RouteGuard.ProtectedAndAuthDisjoint | src/middleware.ts:13-22 | no path is both protected and an authentication page |
| RouteGuard.PrefixMatchOverreaches | src/middleware.ts:13-19 | a path that merely begins like a section, such as `/studentsX`, is protected too |
| BasicRouteGuard.Decide | eduwis-basic/frontend/src/middleware.ts:12-42 | without a session every non-public path redirects to login; with one, `/login` and `/register` redirect to the dashboard; everything else passes |
| BasicRouteGuard.IsPublicRoute | eduwis-basic/frontend/src/middleware.ts:12-13 | a path is public exactly when it is `/`, `/login` or `/register` |
| BasicRouteGuard.PublicMatchIsExact | eduwis-basic/frontend/src/middleware.ts:12-13 | public matching is exact: `/login/` and sub-paths are not public |
| TextUtils.TruncateText | src/lib/utils/index.ts:63-67 | empty or short text is returned unchanged; longer text keeps its first maxLength characters followed by `...`; a negative maxLength drops that many characters from the end (none left when it exceeds the length) before the `...` |
| TextUtils.SliceEnd | src/lib/utils/index.ts:66 | the end index of `slice(0, end)`: `end` when in range, the length when beyond it, and for a negative `end` the length plus `end`, at least 0 |
| TextUtils.Split | src/lib/utils/index.ts:57 | splitting on a character gives one more piece than occurrences, none containing it |
| TextUtils.SplitJoinRoundTrip | src/lib/utils/index.ts:57 | joining the pieces with the separator gives the string back |
| TextUtils.Join | src/lib/utils/index.ts:57 | not a call of the source: the inverse of `split(' ')`, used to state its round trip; the joined text starts with the first piece, followed by the separator when there are several pieces |
| TextUtils.FirstChars | src/lib/utils/index.ts:58-59 | taking `charAt(0)` of each piece gives at most one character per piece |
| TextUtils.FirstCharsAreWordStarts | src/lib/utils/index.ts:56-59 | the first characters of the space-separated pieces are exactly the word starts of the name |
| TextUtils.GetInitials | src/lib/utils/index.ts:53-61 | empty for the empty name; otherwise the upper-cased word starts, at most one per piece |
| TextUtils.PadStart | src/lib/utils/index.ts:47-49 | padding reaches the width, ends with the original and fills the front with the pad character |
| TextUtils.PaddedRandomRoundTrip | src/lib/utils/index.ts:47-49 | the random part is exactly three digits that read back as `floor(random * 1000)` |
| TextUtils.GenerateAdmissionNumber | src/lib/utils/index.ts:46-51 | the prefix (default `ADM`), then the year's decimal text (default the current year), then three digits reading as the random number |
| TextUtils.CalculateAge | src/lib/utils/index.ts:19-36 | 0 for the empty string; otherwise the age whose anniversary is on or before today while the next one is after today |
| TextUtils.AgeIsUnique | src/lib/utils/index.ts:25-33 | that anniversary characterisation fixes the age uniquely |
| JsValues.NatToStringRoundTrip | src/lib/utils/index.ts:47-48 | the decimal text of a number reads back as the number |
| JsValues.NatToStringInjective | src/lib/utils/index.ts:47-48 | distinct numbers have distinct decimal texts |
| JsValues.NatToString | src/lib/utils/index.ts:48 | `toString()` of a non-negative integer (also the template literal at src/lib/hooks/use-realtime-data.ts:121): at least one digit, all digits, no leading zero |
| StudentDto.AcceptedIff | eduwis-basic/backend/src/main.ts:18-24 | a body is accepted exactly when it declares nothing undeclared and every declared property passes its decorators |
| StudentDto.Accepted | eduwis-basic/backend/src/main.ts:18-24 | the pipe accepts a body when it reports no property (AcceptedIff characterises it) |
| StudentDto.CheckHolds | eduwis-basic/backend/src/students/dto/create-student.dto.ts:11-139 | every decorator other than `IsOptional` rejects `undefined` and `null` |
| StudentDto.PropertyValid | eduwis-basic/backend/src/students/dto/create-student.dto.ts:38-40 | `IsOptional` lets `null` or `undefined` through; otherwise every decorator must accept (PairValid characterises it) |
| StudentDto.CreateRulesShape | eduwis-basic/backend/src/students/dto/create-student.dto.ts:11-139 | every create property has a typing decorator followed by `IsNotEmpty` for the four required ones and by `IsOptional` for the rest |
| StudentDto.UpdateRulesKeys | eduwis-basic/backend/src/students/dto/update-student.dto.ts:12-153 | the update DTO declares the create DTO's properties without `userId`, plus `isActive` and `graduationDate` |
| StudentDto.UpdateRulesShape | eduwis-basic/backend/src/students/dto/update-student.dto.ts:12-153 | every update property is optional, and those shared with the create DTO keep its typing decorator |
| StudentDto.UpdateTyping | eduwis-basic/backend/src/students/dto/update-student.dto.ts:12-153 | the typing decorator of each update property: the enum for `gender`, email for `parentEmail`, boolean for `isActive`, date for the three dates, string for the rest |
| StudentDto.CreateTyping | eduwis-basic/backend/src/students/dto/create-student.dto.ts:11-139 | the typing decorator of each create property: the enum for `gender`, email for `parentEmail`, UUID for `userId`, date for the two dates, string for the rest |
| StudentDto.PairValid | eduwis-basic/backend/src/students/dto/create-student.dto.ts:11-139 | an optional property passes when missing, null or well-typed; a required one must be well-typed and not empty |
| StudentDto.CreateRequiredProperties | eduwis-basic/backend/src/students/dto/create-student.dto.ts:11-31 | an accepted create body has a non-empty `studentId`, a `gender` from the enum, a date of birth and a `userId` the UUID test accepts |
| StudentDto.RequiredPairHolds | eduwis-basic/backend/src/students/dto/create-student.dto.ts:137-139 | a property with a type decorator and `IsNotEmpty` is present and passes both in every accepted body |
| StudentDto.CreateOptionalProperties | eduwis-basic/backend/src/students/dto/create-student.dto.ts:38-131 | a present non-null optional property is an email, a date or a string as declared |
| StudentDto.CreateOptionalMayBeOmitted | eduwis-basic/backend/src/students/dto/create-student.dto.ts:38-131 | dropping any optional property keeps a create body accepted |
| StudentDto.CreateRejectsUpdateOnlyProperties | eduwis-basic/backend/src/main.ts:18-24 | a create body carrying `isActive` or `graduationDate` is rejected |
| StudentDto.CreateMinimalBodyAccepted | eduwis-basic/backend/src/students/dto/create-student.dto.ts:11-139 | the four required properties alone form an accepted create body |
| StudentDto.UpdateEmptyBodyAccepted | eduwis-basic/backend/src/students/dto/update-student.dto.ts:12-153 | every update property is optional, so the empty body is accepted |
| StudentDto.UpdatePresentProperties | eduwis-basic/backend/src/students/dto/update-student.dto.ts:12-153 | a present non-null update property has its declared type, with `gender` from the enum of eduwis-basic/backend/src/students/entities/student.entity.ts:4-8 |
| StudentDto.UpdateRejectsUserId | eduwis-basic/backend/src/main.ts:18-24 | an update body carrying `userId` is rejected |

## Left out

- The store client, the change-feed channel, its subscription and its removal on unmount are I/O. The model takes the store's replies and the feed's events as parameters, and each awaited call is one atomic step. Interleavings of concurrent mutations and events are not modelled.
- The `event` option of the main hook narrows which change types the channel delivers. That is channel configuration; the model handles every event type it is given.
- The error logging to the console is left out.
- RealtimeHook.RealtimeData.AddItem: the rollback at src/lib/hooks/use-realtime-data.ts:148 reads the clock once per row, inside the `filter` callback. The model compares every row against a single second reading `nowAtRollback`, so it does not capture readings that change part-way through the filter.
- RealtimeHook.RealtimeData.UpdateItem: a row cannot hold an own property whose value is `undefined`; a missing key stands for it. So the model cannot express updates such as `{ id: undefined }`. In the source, the spread at src/lib/hooks/use-realtime-data.ts:166 copies that property, and the success and rollback `map`s then miss the merged row. The model expresses such input only as updates without `id`, which keep the row's id.
- `Object`/`Date` identity is left out. `===` on object-valued fields is modelled as value equality.
- JavaScript numbers are modelled as unbounded integers. `NaN`, fractions and exponent notation in `toString` are not modelled.
- `toLowerCase`/`toUpperCase` are modelled for ASCII letters only. Unicode case mapping is not.
- Strings are sequences of Unicode code points, so lengths and indices count code points. JavaScript's `length`, `slice` and `charAt` count UTF-16 code units. For text outside the Basic Multilingual Plane, such as an emoji, TruncateText may keep more characters than the source, and GetInitials returns the whole character where `charAt(0)` returns half a surrogate pair.
- DataTable.DataTableView.constructor: takes a positive integer page size. In the source, a page size of 0 gives an `Infinity` or `NaN` page count, and a negative or fractional size gives a negative or fractional count. Neither is modelled.
- DataTable: the rendering of columns and cells is presentation only.
- The route matcher `config` of both middlewares is Next.js configuration, which decides which paths reach the guard. Session lookup and session refresh are I/O. The session is a boolean parameter.
- TextUtils.CalculateAge: takes the parsed birth date and today's date as parameters. `new Date(...)` parsing, time zones and an invalid date (which gives `NaN` in the source) are not modelled.
- TextUtils.GenerateAdmissionNumber: the random number is a real parameter in [0, 1). The year is printed as an integer's decimal text; a fractional year is not modelled.
- `formatDate`, `formatCurrency` and `cn` in src/lib/utils/index.ts are locale formatting and class-name merging, outside the modelled logic.
- StudentDto: the email and UUID tests of the validation library are abstract parameters. The `@Type(() => Date)` transformation is taken as already applied, so a date property is either a `Date` value or not. The pipe's error messages and the OpenAPI decorators are not modelled.

## Findings

| source | as written | input that shows it | evidently intended | confidence | as-written member | corrected member |
|---|---|---|---|---|---|---|
| src/lib/hooks/use-realtime-data.ts:146-149 | the rollback of a failed `addItem` removes rows whose id is `temp-${Date.now()}` taken again at rollback time | a store call that fails one millisecond or more after the placeholder was added (now = 1000, second reading = 1001): the placeholder `temp-1000` stays in the snapshot | remove the placeholder under the `tempId` created at line 121 | high, not executed | RealtimeHook.RollbackRemovesPlaceholderIff | RealtimeHook.RealtimeData.AddItemFixed |
