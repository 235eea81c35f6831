# Art academy admin panel: a Dafny model of its page logic

The art academy admin panel is a React dashboard. Staff use it to run the
academy and its shop:
- take attendance for class sessions, on a full page or in a modal;
- look up a student's attendance history;
- schedule sessions;
- moderate gallery submissions;
- maintain classes, art works, exhibitions and events;
- manage subscriptions and orders, including an order wizard that builds a cart.

Every page pairs a little state with server calls. This project models
that state logic as pure Dafny functions over immutable datatypes:
- how a page turns a server response into what it shows;
- how a form is filled from a record, and which request body it sends back;
- how rows are searched, filtered by status tab, sorted and paginated;
- which buttons a row offers, and what each click changes.

Server calls become `Fetch` values (a body or a failure) passed in as
arguments. The user's answer to a `window.confirm` is a boolean argument.

JavaScript's loose semantics are written out explicitly:
- `x || d` and `x ?? d` on missing, empty, zero or `false` values;
- `<` and `>=` against `undefined`, which give NaN;
- `String(n)`, `parseInt` with white space and `0x` prefixes, `slice`,
  `toLowerCase` and `includes`.

Modules follow the source files:

| module | models |
|---|---|
| `Common`, `Text`, `Search` | JavaScript value semantics, strings and numerals, the search box every list page uses |
| `Roster`, `AttendanceTaking`, `AttendancePage`, `AttendanceHistory` | attendance marking on its own page and in the sessions modal, and the history panel |
| `Sessions` | the sessions page: search, status buttons, session form |
| `DataTable`, `Listing`, `StatusTabs` | the shared table (sort, footer, page buttons), server pagination and short ids, the moderation tabs |
| `FormComponents` | the status badge and the button's disabled rule |
| `CreateOrder`, `Orders` | the order wizard and cart, and the ship/deliver flow |
| `Galleries`, `LmsGallery` | gallery moderation and the student-submission review |
| `Catalog`, `ArtWorks`, `Classes`, `Exhibitions`, `Events`, `Subscriptions` | the catalogue pages: prices, forms, request bodies, searches |
| `Sidebar` | the collapsible navigation groups |

Attendance marking, as the code does it:
- **Default marks.** On the attendance page every student starts absent (src/pages/AttendanceTakingPage.jsx:46-56). In edit mode a student without a stored record is absent too (line 96; `AttendanceTaking.FreshRow`, `AttendanceTaking.MergedRow`). The sessions modal instead presets a student present unless `isOverLimit || attended >= allowed` holds (src/pages/AttendancePage.jsx:65-76; `AttendancePage.OpenRow`).
- **Stored remarks.** In edit mode a record's remarks are copied as they are (src/pages/AttendanceTakingPage.jsx:97), so a missing one stays missing.
- **Failed student fetch.** On the attendance page the catch only shows a toast (src/pages/AttendanceTakingPage.jsx:59-61), so the page keeps loading. The modal only logs the error (src/pages/AttendancePage.jsx:50-52) and keeps its previous list.
- **Empty roster.** Neither screen checks for it: both submit an empty `attendanceList` (src/pages/AttendanceTakingPage.jsx:140-147, src/pages/AttendancePage.jsx:88-100).
- **Mark all present.** It asks for confirmation on the attendance page (src/pages/AttendanceTakingPage.jsx:157-162) and not in the modal (src/pages/AttendancePage.jsx:129-136).

## Model

| member | source | states |
|---|---|---|
| Common.OpenForm | src/pages/EventsPage.jsx:62-103 | edit with a row fills the form from it, create resets it to the blank form, view keeps it; the sessions page (src/pages/SessionsPage.jsx, lines 61-86) opens its modal the same way |
| Common.UndefinedComparesFalse | src/pages/AttendancePage.jsx:65 | against an `undefined` operand both `<` and `>=` are false, so they are not complements |
| Common.AtLeastIsNotLess | src/pages/AttendancePage.jsx:65 | when neither operand is `undefined`, `a >= b` holds exactly when `a < b` does not |
| Text.Lower | src/pages/SessionsPage.jsx:173-178 | `toLowerCase` keeps the length and folds each character, leaving no upper-case ASCII letter |
| Text.LowerIdempotent | src/pages/SessionsPage.jsx:173-178 | lower-casing an already lower-cased string changes nothing |
| Text.LowerAppend | src/pages/SessionsPage.jsx:173-178 | lower-casing distributes over concatenation |
| Text.Contains | src/pages/SessionsPage.jsx:175-178 | `includes` is true exactly when the needle occurs at some index of the haystack |
| Text.ContainsEmpty | src/pages/SessionsPage.jsx:172-178 | every string includes the empty string |
| Text.ContainsSelf | src/pages/SessionsPage.jsx:175-178 | every string includes itself |
| Text.Take | src/pages/EventsPage.jsx:70-71 | `slice(0, n)` is a prefix of length `min(n, |s|)` |
| Text.TakeLast | src/pages/OrdersPage.jsx:47 | `slice(-n)` is a suffix of length `min(n, |s|)` that completes the string |
| Text.ReplaceAll | src/components/ui/FormComponents.jsx:39 | a global one-character replace changes exactly the occurrences of that character |
| Text.NatToDecimal | src/pages/SubscriptionsPage.jsx:132 | `String(n)` of a natural number is a non-empty digit string without a leading zero, and "0" for zero |
| Text.IntToDecimal | src/pages/SubscriptionsPage.jsx:132 | `String(n)` is digits, preceded by a minus sign exactly for a negative number |
| Text.NumberText | src/pages/ClassesPage.jsx:96 | `x || ''` on a number gives "" for a missing number or zero, and otherwise its numeral |
| Text.NumberTextReadsBack | src/pages/ClassesPage.jsx:96-127 | `parseInt` of a number input filled with `x || ''` gives back `x`, or NaN when `x` was missing or zero |
| Text.ParseIntOfDecimal | src/pages/ExhibitionsPage.jsx:123-124 | `parseInt` reads back `String(n)` for every integer, even with trailing text that is not a digit or `x` |
| Text.ParseIntRoundTrip | src/pages/ExhibitionsPage.jsx:123-124 | `parseInt(String(n)) == n` for every integer |
| Text.ParseIntEmpty | src/pages/ClassesPage.jsx:127 | `parseInt('')` is NaN |
| Text.ParseIntSkipsSpace | src/pages/SubscriptionsPage.jsx:105-107 | leading white space (the ASCII spaces, line and paragraph separators, byte-order mark and every Unicode space separator) does not change what `parseInt` reads |
| Search.Count | src/pages/AttendanceTakingPage.jsx:168 | `filter(p).length` is at most the length of the list |
| Search.Filter | src/pages/SessionsPage.jsx:174-179 | `filter` keeps exactly the elements satisfying the predicate, in order, as a subsequence |
| Search.FilterKeepsAll | src/pages/SessionsPage.jsx:174-179 | a filter that every element passes returns its input unchanged |
| Search.FilterKeepsPairwise | src/components/layout/Sidebar.jsx:18 | a filter keeps any property that held of every ordered pair of the input |
| Search.CountSplit | src/pages/AttendanceTakingPage.jsx:168-169 | counts under a predicate and under its negation add up to the length |
| Search.Matches | src/pages/SessionsPage.jsx:175-178 | a row matches exactly when one of its fields, `|| ''` and lower-cased, includes the lower-cased term |
| Search.SearchList | src/pages/SessionsPage.jsx:171-180 | an empty term returns the rows unchanged; otherwise exactly the matching rows, in order, each as often as it comes (the kept length is the count of matching rows) |
| Search.SearchCount | src/pages/SessionsPage.jsx:171-180 | a page's own hit test that agrees with the fields' test counts the rows the search keeps |
| Search.SearchKeepsAll | src/pages/SessionsPage.jsx:171-180 | a search every row matches returns the rows unchanged |
| Search.EmptyTermMatchesAll | src/pages/SessionsPage.jsx:172 | the empty term matches every row with at least one search field, so the early return agrees with the filter |
| Search.MatchesIgnoresTermCase | src/pages/SessionsPage.jsx:173 | a term and its lower-cased form match the same rows |
| Search.FieldHitSelf | src/pages/SessionsPage.jsx:175-178 | a field holding the term itself is a hit |
| Search.MissingFieldHit | src/pages/SessionsPage.jsx:175-178 | a missing field matches only the empty term |
| Roster.RollNoText | src/components/attendance/StudentAttendanceHistory.jsx:39 | `(rollNo || '').toString()` is "" for a missing or zero roll number and the text itself for a text one; a non-zero number reads back through `parseInt` |
| Roster.ToggleRow | src/pages/AttendanceTakingPage.jsx:120-129 | an absent over-limit row without confirmation stays as it is; otherwise the mark flips and nothing else changes |
| Roster.Toggle | src/pages/AttendanceTakingPage.jsx:118-131 | only rows with the clicked id change, each as `ToggleRow` says; the rest stay in place |
| Roster.SetRemarks | src/pages/AttendanceTakingPage.jsx:133-134 | only the remarks of rows with that id change, to the text given |
| Roster.MarkAll | src/pages/AttendanceTakingPage.jsx:157-162 | every row takes the given mark; ids, names, flags and remarks are unchanged |
| Roster.PresentCount | src/pages/AttendanceTakingPage.jsx:168 | the present count is at most the roster's length |
| Roster.AbsentCount | src/pages/AttendanceTakingPage.jsx:169 | the absent count is at most the roster's length |
| Roster.Payload | src/pages/AttendanceTakingPage.jsx:142-146 | one entry per row, in order, carrying only id, mark and remarks |
| Roster.CountsCoverRoster | src/pages/AttendanceTakingPage.jsx:168-169 | present plus absent is the roster's length |
| Roster.UniformCount | src/pages/AttendanceTakingPage.jsx:168-169 | a roster all present counts its length as present and none absent; all absent the other way round |
| Roster.MarkAllCounts | src/pages/AttendanceTakingPage.jsx:157-169 | after marking all present (absent), the present (absent) count is the roster's length |
| Roster.MarkAllIdempotent | src/pages/AttendanceTakingPage.jsx:157-162 | marking all twice equals marking all once, and the result does not depend on the previous marks |
| Roster.ToggleTwice | src/pages/AttendanceTakingPage.jsx:118-131 | with confirmation given, toggling the same student twice restores the roster |
| Roster.DeclinedToggleIsNoOp | src/pages/AttendanceTakingPage.jsx:123-125 | declining the warning for an absent over-limit student leaves the roster unchanged |
| Roster.UnmarkNeverGated | src/pages/AttendanceTakingPage.jsx:123 | marking a present student absent gives the same roster whether or not confirmation is given |
| Roster.OperationsKeepIdsAndFlags | src/pages/AttendanceTakingPage.jsx:118-162 | toggle, remarks and mark-all keep the length, the ids and the over-limit flags |
| Roster.PresentCountUpdate | src/pages/AttendanceTakingPage.jsx:168 | replacing one row changes the present count by the change of that row's mark |
| Roster.ToggleMovesCountByOne | src/pages/AttendanceTakingPage.jsx:118-131 | with unique ids, a toggle past the gate moves the present count by exactly one in the direction of the new mark |
| Roster.PayloadPresentCount | src/pages/AttendanceTakingPage.jsx:140-147 | the payload has as many present entries as the roster has present rows |
| Roster.PayloadStripsDisplayFields | src/pages/AttendanceTakingPage.jsx:142-146 | two rosters that agree on ids, marks and remarks give the same payload |
| AttendanceTaking.FreshRow | src/pages/AttendanceTakingPage.jsx:46-56 | a fresh row copies the student, takes the counts with `|| 0` and the flag with `|| false`, and starts absent with empty remarks |
| AttendanceTaking.InitRoster | src/pages/AttendanceTakingPage.jsx:46-56 | one fresh row per eligible student, in order |
| AttendanceTaking.InitRosterAllAbsent | src/pages/AttendanceTakingPage.jsx:54 | a new roster has nobody present and everybody absent |
| AttendanceTaking.FindRecord | src/pages/AttendanceTakingPage.jsx:93 | `find` returns nothing exactly when no record has the id, and otherwise the first record with it |
| AttendanceTaking.FindRecordAppend | src/pages/AttendanceTakingPage.jsx:93 | records appended after a match, or without the id, do not change what `find` returns |
| AttendanceTaking.MergedRow | src/pages/AttendanceTakingPage.jsx:92-102 | an edit-mode row keeps the eligible student's data; mark and remarks come from the first matching record, otherwise absent with "" |
| AttendanceTaking.Merge | src/pages/AttendanceTakingPage.jsx:92-103 | the edit-mode roster has one merged row per eligible student, in the eligible order |
| AttendanceTaking.MergeIgnoresStrangers | src/pages/AttendanceTakingPage.jsx:92-103 | records of students who are not eligible do not change the roster |
| AttendanceTaking.MergeFirstRecordWins | src/pages/AttendanceTakingPage.jsx:93 | a later duplicate record of a student is ignored |
| AttendanceTaking.MergeWithoutRecordsIsFresh | src/pages/AttendanceTakingPage.jsx:92-103 | with no stored records, edit mode sends the same payload as a new attendance |
| AttendanceTaking.StoredMarkIsResubmitted | src/pages/AttendanceTakingPage.jsx:92-147 | a stored mark and remarks of an eligible student reappear, at that student's place, in the payload of an unchanged edit |
| AttendanceTaking.InitialPage | src/pages/AttendanceTakingPage.jsx:18 | the page starts in the initial mode, loading, with no students |
| AttendanceTaking.LoadEligible | src/pages/AttendanceTakingPage.jsx:42-62 | success sets the fresh roster and stops loading; failure changes nothing, so the spinner stays |
| AttendanceTaking.LoadExisting | src/pages/AttendanceTakingPage.jsx:65-112 | without records only loading stops; with records and eligible students the merged roster is shown in edit mode; any failure changes nothing |
| AttendanceTaking.LoadSession | src/pages/AttendanceTakingPage.jsx:21-39 | a taken session goes to the stored-attendance load; otherwise the page is what the eligibility load (lines 42-62) makes of new mode: one fresh row per eligible student, in order, loading stopped, or still loading if the student fetch fails |
| AttendanceTaking.MarkAllStudents | src/pages/AttendanceTakingPage.jsx:157-162 | mark-all present without confirmation does nothing; absent, or confirmed, marks every row |
| AttendanceTaking.MarkAllStudentsIdempotent | src/pages/AttendanceTakingPage.jsx:157-162 | mark-all is idempotent, and marking all absent leaves nobody present |
| AttendanceTaking.ConfirmedOverLimitShowsWarning | src/pages/AttendanceTakingPage.jsx:200 | confirming an absent over-limit student shows the warning banner; no fresh roster shows it, whoever is eligible |
| AttendanceTaking.SubmitRequest | src/pages/AttendanceTakingPage.jsx:140-147 | the request names the session and has one entry per row, even for an empty roster |
| AttendanceTaking.AfterSubmit | src/pages/AttendanceTakingPage.jsx:148-153 | success leaves the page; failure keeps it exactly as it was |
| AttendancePage.OpenRow | src/pages/AttendancePage.jsx:65-76 | the modal flags a student by `isOverLimit || attended >= allowed` and presets the mark to the negation, remarks "" |
| AttendancePage.OpenRoster | src/pages/AttendancePage.jsx:64-77 | one row per eligible student, in order |
| AttendancePage.OpenRosterNeedsNoConfirmation | src/pages/AttendancePage.jsx:73-74 | nobody starts both present and flagged |
| AttendancePage.ModalFlagsAtLeastAsMuch | src/pages/AttendancePage.jsx:65 | every student the server flags is flagged in the modal |
| AttendancePage.ScreensDisagree | src/pages/AttendancePage.jsx:65 | a student with 8 of 8 sessions and no server flag is flagged only in the modal; one with 2 of 8 starts absent on the attendance page but present in the modal |
| AttendancePage.MissingAttendedNotAtThreshold | src/pages/AttendancePage.jsx:65 | a student with no attended count and no server flag is not flagged, because `undefined >= n` is false |
| AttendancePage.OpenCounts | src/pages/AttendancePage.jsx:210-211 | as the modal opens, the present count is the number of unflagged students and the absent count the number of flagged ones |
| AttendancePage.ThreeStudentExample | src/pages/AttendancePage.jsx:64-77 | the three-student example opens as present, absent, present, with counts 2 and 1 |
| AttendancePage.MarkAllInModal | src/pages/AttendancePage.jsx:129-136 | mark all present/absent needs no confirmation and keeps remarks and flags |
| AttendancePage.SubmitAttendance | src/pages/AttendancePage.jsx:88-100 | nothing without a selected session; otherwise the session id and the roster's payload |
| AttendancePage.SameSubmissionAsFullPage | src/pages/AttendancePage.jsx:93-100 | for the same session and rows, the modal sends exactly what the attendance page sends |
| AttendancePage.FilteredSessions | src/pages/AttendancePage.jsx:213-221 | an empty term keeps every row; otherwise the search keeps, in order and as many as there are, exactly the sessions whose topic, date or status includes the term |
| AttendancePage.AttendanceSearchWithinSessionsSearch | src/pages/AttendancePage.jsx:213-221 | every session this search keeps, the sessions page's search keeps too |
| AttendanceHistory.LoadStudents | src/components/attendance/StudentAttendanceHistory.jsx:21-29 | a list response replaces the students, a null one empties them, a failure keeps them |
| AttendanceHistory.FilteredStudents | src/components/attendance/StudentAttendanceHistory.jsx:34-42 | an empty term keeps every row; otherwise the search keeps, in order and as many as there are, exactly the students whose name, roll number text or e-mail includes the term |
| AttendanceHistory.RollNumberFindsStudent | src/components/attendance/StudentAttendanceHistory.jsx:39 | typing a student's non-zero numeric roll number finds the student |
| AttendanceHistory.ZeroRollNumberIsBlank | src/components/attendance/StudentAttendanceHistory.jsx:39 | the roll number 0 reads as "", so typing "0" does not find the student by it |
| AttendanceHistory.StatsOf | src/components/attendance/StudentAttendanceHistory.jsx:54-56 | present and absent count logs by status, and the total is the number of logs |
| AttendanceHistory.InitialHistory | src/components/attendance/StudentAttendanceHistory.jsx:11-17 | no student is selected, no logs are held and the counts are zero |
| AttendanceHistory.FetchLogs | src/components/attendance/StudentAttendanceHistory.jsx:45-65 | nothing without a student; a list sets the logs and the cards counted from them: present and absent by status, and the total their number (`StatsOf`); a null response (whose `filter` throws) or a failure clears the logs and keeps the old stats |
| AttendanceHistory.StatsAddUp | src/components/attendance/StudentAttendanceHistory.jsx:54-56 | if the cards added up before a fetch (present plus absent within the total, the total the number of logs shown) they add up after it |
| AttendanceHistory.DisabledWithoutStudent | src/components/attendance/StudentAttendanceHistory.jsx:126 | the Filter Logs button is disabled whenever a fetch would do nothing |
| AttendanceHistory.MonthOptions | src/components/attendance/StudentAttendanceHistory.jsx:115-118 | the month selector holds 12 values in increasing order |
| AttendanceHistory.SelectedMonthReadsBack | src/components/attendance/StudentAttendanceHistory.jsx:112-118 | a month is offered exactly when it lies between 1 and 12, and choosing it sets, through `parseInt` of the option's text, that same month for the logs request |
| Sessions.FilteredSessions | src/pages/SessionsPage.jsx:171-180 | an empty term keeps every row; otherwise the search keeps, in order and as many as there are, exactly the sessions whose topic, date, status or start time includes the term |
| Sessions.Target | src/pages/SessionsPage.jsx:148-162 | exactly Start, Complete and Cancel ask for a new status |
| Sessions.Stage | src/pages/SessionsPage.jsx:148-162 | scheduled is stage 0, in progress stage 1, and every other status stage 2 |
| Sessions.OfferedActionsMoveForward | src/pages/SessionsPage.jsx:148-162 | every status button a row offers moves the session strictly forward |
| Sessions.StartAndCompleteExclusive | src/pages/SessionsPage.jsx:148-162 | no status offers both Start and Complete, or both Complete and Cancel; Start and Cancel always come together |
| Sessions.CreateForm | src/pages/SessionsPage.jsx:74-84 | the new-session form is blank |
| Sessions.EditForm | src/pages/SessionsPage.jsx:64-73 | the edit form copies each text field with `|| ''` |
| Sessions.EditFormRoundTrip | src/pages/SessionsPage.jsx:64-73 | for a session with every text field present, the edit form holds exactly those fields |
| Sessions.EditOfBlankIsCreate | src/pages/SessionsPage.jsx:61-86 | editing a session without any text field gives the same form as creating one |
| DataTable.StrLessIrreflexive | src/components/ui/DataTable.jsx:43-44 | no string is `<` itself |
| DataTable.StrLessTransitive | src/components/ui/DataTable.jsx:43-44 | string `<` is transitive |
| DataTable.StrLessTotal | src/components/ui/DataTable.jsx:43-44 | of two different strings one is `<` the other |
| DataTable.InitialSort | src/components/ui/DataTable.jsx:19 | the table starts unsorted and ascending |
| DataTable.HandleSort | src/components/ui/DataTable.jsx:30-36 | an empty key is ignored; otherwise the key is set, descending exactly when it was already the ascending key |
| DataTable.SortCycle | src/components/ui/DataTable.jsx:30-36 | clicking the same header flips the direction, and three clicks equal one |
| DataTable.OtherKeyRestartsAscending | src/components/ui/DataTable.jsx:34 | a click on another header always sorts it ascending |
| DataTable.BeforeIsStrictOrder | src/components/ui/DataTable.jsx:39-46 | the comparator in either direction is irreflexive, transitive and total on different cells |
| DataTable.NotBeforeTransitive | src/components/ui/DataTable.jsx:39-46 | "not strictly before" is transitive as well |
| DataTable.Insert | src/components/ui/DataTable.jsx:39-46 | inserting a row adds exactly that row |
| DataTable.InsertSorted | src/components/ui/DataTable.jsx:39-46 | inserting into a sorted list keeps it sorted |
| DataTable.InsertWithKey | src/components/ui/DataTable.jsx:39-46 | insertion keeps the relative order of the rows sharing any key |
| DataTable.Sort | src/components/ui/DataTable.jsx:39-46 | the sort is a permutation, sorted in the direction given, and stable: the rows of each key stay in input order |
| DataTable.SortedData | src/components/ui/DataTable.jsx:39-46 | no key keeps the input order; otherwise the rows sorted by the cell `?? ''` in the chosen direction, as a permutation |
| DataTable.EqualCellsKeepOrder | src/components/ui/DataTable.jsx:39-46 | rows with equal cells keep their relative order in both directions |
| DataTable.DescendingIsNotReverse | src/components/ui/DataTable.jsx:43-45 | two rows with equal cells come out as given in both directions, so descending is not the reverse of ascending |
| DataTable.RangeStart | src/components/ui/DataTable.jsx:128 | a page after a full previous page starts one past where that page ended |
| DataTable.RangeEnd | src/components/ui/DataTable.jsx:128 | the last row number is the end of the page, or the total when that is smaller |
| DataTable.RangeCountsPageRows | src/components/ui/DataTable.jsx:128 | on a non-empty page the footer spans between 1 and `size` rows |
| DataTable.EmptyRange | src/components/ui/DataTable.jsx:128 | with no rows the footer reads "1–0" |
| DataTable.ButtonsStayInRange | src/components/ui/DataTable.jsx:133-144 | an enabled page button leads to a page that exists; a single page disables both |
| Listing.ServerPagination | src/pages/ExhibitionsPage.jsx:66-71 | a missing or zero server field falls back: number 0, the page's size, 0 elements; the page count is never 0 |
| Listing.ServerPaginationKeepsWellFormed | src/pages/ExhibitionsPage.jsx:66-71 | a well-formed page from the server reaches the footer object unchanged; the events page builds it the same way (src/pages/EventsPage.jsx:45-50) and hands it to the table |
| Listing.ShortId | src/pages/OrdersPage.jsx:90 | the id column shows the first eight characters plus "...", and "undefined..." for a missing id |
| Listing.ShortIdKeepsPrefix | src/pages/OrdersPage.jsx:90 | two ids with the same first eight characters look the same |
| StatusTabs.StatusFilter | src/pages/GalleriesPage.jsx:69-72 | the ALL tab keeps everything; any other tab keeps exactly the items of that status, in order, as many as there are |
| StatusTabs.Counts | src/pages/GalleriesPage.jsx:193-195 | the ALL count is the length of the unfiltered list |
| StatusTabs.CountsMatchTabs | src/pages/GalleriesPage.jsx:193-202 | each tab's count is the length of the list that tab shows, and pending, approved and rejected never exceed ALL |
| StatusTabs.CeilDiv | src/pages/GalleriesPage.jsx:79 | `Math.ceil(n / d)` is the least number of pages of size `d` that hold `n` items |
| StatusTabs.LocalPagination | src/pages/GalleriesPage.jsx:75-80 | number and size `|| default`, elements the filtered count, and the fewest pages, at least 1, that hold them |
| StatusTabs.LocalPaginationWellFormed | src/pages/GalleriesPage.jsx:75-80 | on page 0, when the size the server reports is the size the pages are counted with, the footer is well formed; both pages request 100 rows, so their footers do not meet this (see Findings) |
| StatusTabs.Opening | src/pages/GalleriesPage.jsx:19-21 | a tab page opens on its default tab at page 0; the galleries page opens on APPROVED, the review page on PENDING (src/pages/LmsGalleryPage.jsx:19-20) |
| StatusTabs.SelectTab | src/pages/GalleriesPage.jsx:260 | a tab click selects the tab and resets the page to 0, the same state as opening the page on that tab |
| StatusTabs.SelectTabForgetsPage | src/pages/GalleriesPage.jsx:260 | after a tab click the previous page no longer matters |
| FormComponents.StyleOf | src/components/ui/FormComponents.jsx:5-33 | the `default` style is grey (the other tones are stated by the three lemmas below) |
| FormComponents.BadgeTone | src/components/ui/FormComponents.jsx:35 | the status's style if listed, else the variant's, else the default grey |
| FormComponents.StatusBeatsVariant | src/components/ui/FormComponents.jsx:35 | a listed status wins over any variant; an unlisted one defers to it |
| FormComponents.WaitingIsYellow | src/components/ui/FormComponents.jsx:7-29 | every waiting status is yellow, like the `warning` variant |
| FormComponents.DoneIsGreen | src/components/ui/FormComponents.jsx:8-28 | every finished-well status is green, like the `success` variant |
| FormComponents.RejectedAndUnknownTones | src/components/ui/FormComponents.jsx:9-35 | a rejection is red like `error`, and an unknown status with no variant is grey |
| FormComponents.BadgeLabel | src/components/ui/FormComponents.jsx:39 | the label is the status with `_` replaced by spaces, or "Unknown" for a missing or empty status |
| FormComponents.BadgeLabelShape | src/components/ui/FormComponents.jsx:39 | the label is never empty and never shows `_`, and a status without `_` reads as itself |
| FormComponents.BadgeLabelExample | src/components/ui/FormComponents.jsx:39 | "IN_PROGRESS" and "IN PROGRESS" read the same |
| FormComponents.LoadingButtonIsDisabled | src/components/ui/FormComponents.jsx:51-52 | a loading button is disabled whatever `disabled` says; without `loading` it is disabled exactly when `disabled` is true |
| CreateOrder.TypeName | src/components/CreateOrderModal.jsx:143 | art works are sent as ART_WORK, everything else as MATERIAL |
| CreateOrder.ProductMatches | src/components/CreateOrderModal.jsx:82-87 | a product is listed exactly when the name its card shows (`title || name`) contains the query in any letter case; an empty query lists every product |
| CreateOrder.DisplayName | src/components/CreateOrderModal.jsx:106 | `title || name`: the title unless missing or empty |
| CreateOrder.FirstImage | src/components/CreateOrderModal.jsx:110 | the first of the image list unless missing or empty, else the single image |
| CreateOrder.NewItem | src/components/CreateOrderModal.jsx:103-111 | a new line has the product's id, `price || 0`, quantity 1 and the current type |
| CreateOrder.AddToCart | src/components/CreateOrderModal.jsx:96-113 | a product already in the cart with this type leaves the cart alone; otherwise its line is appended; unique keys and positive quantities are kept |
| CreateOrder.AddToCartIdempotent | src/components/CreateOrderModal.jsx:97-101 | adding the same product twice equals adding it once |
| CreateOrder.SameIdBothTypes | src/components/CreateOrderModal.jsx:97 | the same id can sit in the cart once as an art work and once as a material |
| CreateOrder.ClampQuantity | src/components/CreateOrderModal.jsx:118 | `Math.max(1, q + delta)` is at least 1 and is `q + delta` when that is positive |
| CreateOrder.UpdateQuantity | src/components/CreateOrderModal.jsx:115-123 | every line with that id, of either type, gets the clamped quantity; other lines and the keys are unchanged |
| CreateOrder.PlusThenMinus | src/components/CreateOrderModal.jsx:115-123 | `+` then `-` restores a cart whose quantities are positive |
| CreateOrder.RemoveFromCart | src/components/CreateOrderModal.jsx:125-127 | every line with that id, of either type, goes; the others stay in order |
| CreateOrder.RemoveKeepsInvariants | src/components/CreateOrderModal.jsx:125-127 | removal keeps the keys unique and the quantities positive |
| CreateOrder.Total | src/components/CreateOrderModal.jsx:129-131 | an empty cart costs nothing |
| CreateOrder.TotalAppend | src/components/CreateOrderModal.jsx:129-131 | the total of two carts side by side is the sum of their totals |
| CreateOrder.TotalNonNegative | src/components/CreateOrderModal.jsx:129-131 | with non-negative prices and positive quantities the total is non-negative |
| CreateOrder.AddRaisesTotal | src/components/CreateOrderModal.jsx:96-131 | adding a product raises the total by its price, or leaves it when already in the cart |
| CreateOrder.ShippingAddress | src/components/CreateOrderModal.jsx:145 | the typed address, else the customer's, else "Address not provided" |
| CreateOrder.Submit | src/components/CreateOrderModal.jsx:133-147 | nothing without a customer or with an empty cart; otherwise one line per cart line with id, quantity and type name, and the "Created by Admin" note |
| CreateOrder.SubmittedQuantitiesPositive | src/components/CreateOrderModal.jsx:140-144 | a request from a cart with positive quantities asks for positive quantities |
| CreateOrder.Step | src/components/CreateOrderModal.jsx:404-412 | opening resets step, customer, cart and address (lines 29-37); Next moves only when allowed; Back goes one step down or closes on step 1; choosing a customer works only on step 1, the type and cart controls only on step 2 and the address controls only on step 3, and each changes nothing else |
| CreateOrder.StepKeepsValid | src/components/CreateOrderModal.jsx:405-412 | every action keeps the wizard valid: step 1 to 3, a customer past step 1, a non-empty cart on step 3 |
| CreateOrder.Run | src/components/CreateOrderModal.jsx:405-412 | any sequence of actions from a valid wizard leaves it valid |
| CreateOrder.ConfirmOnStepThreeSends | src/components/CreateOrderModal.jsx:133-147 | Confirm on step 3, however it was reached after opening, always sends a request |
| CreateOrder.ConfirmStaysEnabledWhileSubmitting | src/components/CreateOrderModal.jsx:417 | while the request is in flight the written Confirm button is enabled, while the intended one is disabled |
| Orders.ShipThenDeliver | src/pages/OrdersPage.jsx:112-121 | no order offers both Ship and Deliver; shipping leads to Deliver; a delivered order offers neither |
| Orders.TrackingFor | src/pages/OrdersPage.jsx:47 | "TRK-" followed by the last six digits of the millisecond timestamp, or all of them when it has fewer |
| Orders.TrackingLength | src/pages/OrdersPage.jsx:47 | a clock of six or more digits gives a ten-character tracking number |
| Orders.HandleShip | src/pages/OrdersPage.jsx:45-51 | Ship pre-fills FedEx and the tracking number, remembers the order and closes the details; the ship modal opens only for a non-empty id |
| Orders.ConfirmShip | src/pages/OrdersPage.jsx:53-60 | nothing is sent while carrier or tracking number is empty; otherwise the shipment for that order |
| Orders.PrefilledShipmentIsSent | src/pages/OrdersPage.jsx:45-60 | confirming right after Ship sends the pre-filled FedEx shipment for that order |
| Orders.LineTotal | src/pages/OrdersPage.jsx:179 | a line's amount is price times quantity, with a missing factor counting as 0 |
| Orders.LinesAddUpToCartTotal | src/pages/OrdersPage.jsx:179 | the line amounts of the details modal add up to the wizard's cart total |
| Galleries.Load | src/pages/GalleriesPage.jsx:61-86 | all entries are kept for the counts; the tab keeps exactly its entries, in order, as many as there are; the total is the filtered count and the page count the least one that holds it, at least 1 |
| Galleries.OpeningTabShowsApproved | src/pages/GalleriesPage.jsx:69-72 | the page opens on the APPROVED tab (line 21), where exactly the approved entries are shown, in order, as many as there are |
| Galleries.TabCountsOf | src/pages/GalleriesPage.jsx:193-202 | the ALL count is the number of loaded entries, the three status counts add up to at most it, and the approved count is the approved tab's length |
| Galleries.ModerationButtons | src/pages/GalleriesPage.jsx:344-367 | exactly one of Approve and Revoke is on every card, and no offered button asks for the status the entry already has |
| Galleries.ModerationByStatus | src/pages/GalleriesPage.jsx:344-367 | pending offers Approve and Reject, rejected Approve only, approved Revoke only |
| Galleries.FilteredItems | src/pages/GalleriesPage.jsx:227-236 | an empty term keeps every row; otherwise the search keeps, in order and as many as there are, exactly the entries whose name, description, submitter or category includes the term |
| LmsGallery.OpeningTabOffersReview | src/pages/LmsGalleryPage.jsx:20 | the review page opens on the PENDING tab: it shows exactly the pending entries, and each of them can be approved or rejected |
| LmsGallery.LoadReview | src/pages/LmsGalleryPage.jsx:55-81 | the same filtering as the galleries page (each tab its entries in order, as many as there are), with pages of 20 |
| LmsGallery.SameLoadAsGalleries | src/pages/LmsGalleryPage.jsx:58-75 | for a page size of 20 the review page loads exactly what the galleries page loads |
| LmsGallery.ReviewIsStricterThanGalleries | src/pages/LmsGalleryPage.jsx:237 | a row offering approve or reject here is pending, and the galleries page offers the same action on it |
| LmsGallery.FilteredReview | src/pages/LmsGalleryPage.jsx:274-283 | an empty term keeps every row; otherwise the search keeps, in order and as many as there are, exactly the rows whose name, submitter, category or status includes the term |
| LmsGallery.PendingHit | src/pages/LmsGalleryPage.jsx:281 | "PENDING" matches the term "pending" |
| LmsGallery.ReviewFooterOffersMissingPage | src/pages/LmsGalleryPage.jsx:70-75 | with the 100 rows the page requests (line 58), 21 to 100 filtered rows give a footer showing all of them on one page, yet counting at least 2 pages with Next enabled; such a footer is not well formed |
| LmsGallery.LoadReviewIntended | src/pages/LmsGalleryPage.jsx:70-75 | the same rows as the page loads, with the pages counted in the footer's own size: at least one page, enough to hold every row, and no empty last page |
| LmsGallery.IntendedFooterIsWellFormed | src/pages/LmsGalleryPage.jsx:70-75 | counted that way the footer on page 0 is well formed, and with the requested 100 rows it shows one page with Next disabled |
| LmsGallery.SearchingTheTabKeepsAll | src/pages/LmsGalleryPage.jsx:274-283 | searching "pending" on the pending tab keeps every row |
| Catalog.ShownPrice | src/pages/ArtWorksPage.jsx:298 | `discountPrice || basePrice`: the discount when truthy, else the base price |
| Catalog.BadgeAgreesWithPrice | src/pages/ArtWorksPage.jsx:298-300 | whenever the badge shows, the card's price is the discount and it is below the base price; without a discount there is no badge and the base price shows |
| Catalog.PriceText | src/pages/ArtWorksPage.jsx:119-120 | `x || ''`: "" for a missing, null or zero price, otherwise its numeral |
| Catalog.OptionalPrice | src/pages/ArtWorksPage.jsx:153 | an empty discount field is sent as null; otherwise `parseFloat` of the text |
| Catalog.DiscountRoundTrip | src/pages/ArtWorksPage.jsx:120 | an unchanged stored discount is sent back as null exactly when it was falsy |
| ArtWorks.QueryOf | src/pages/ArtWorksPage.jsx:68-74 | while searching, page 0 of size 1000; otherwise the current page and size; the category only when one is chosen |
| ArtWorks.Load | src/pages/ArtWorksPage.jsx:77-95 | without a search, the content and the server's pagination; while searching, exactly the matching rows in order, as many as there are, on a single page of their own count |
| ArtWorks.SearchingShowsOnePage | src/pages/ArtWorksPage.jsx:90-95 | while searching the footer object is page 0 of 1 and its total is the number of matches; read with the table's button rule, both page buttons are disabled |
| ArtWorks.SetSearchTerm | src/pages/ArtWorksPage.jsx:225 | typing sets the term and goes back to page 0, keeping the category |
| ArtWorks.SetCategory | src/pages/ArtWorksPage.jsx:233 | choosing a category sets it and goes back to page 0, keeping the term |
| ArtWorks.NewFilterRestartsAtFirstPage | src/pages/ArtWorksPage.jsx:68-74 | after a new term or category the fetch is of page 0, and clearing the category drops the parameter |
| ArtWorks.CreateForm | src/pages/ArtWorksPage.jsx:124-136 | the new art work form is blank and active |
| ArtWorks.EditForm | src/pages/ArtWorksPage.jsx:111-123 | every text field with `|| ''`, prices as their text, active with `?? true` |
| ArtWorks.Payload | src/pages/ArtWorksPage.jsx:145-156 | the base price parsed; the discount null exactly when its field is empty, otherwise parsed; every other field as typed |
| ArtWorks.EditPayloadKeepsDiscountAndActive | src/pages/ArtWorksPage.jsx:111-156 | an untouched edit sends null as discount exactly when there was none, and keeps `active: false` |
| Classes.FilteredClasses | src/pages/ClassesPage.jsx:185-194 | an empty term keeps every row; otherwise the search keeps, in order and as many as there are, exactly the classes whose name, description, category or proficiency includes the term |
| Classes.LevelSearchFindsLevel | src/pages/ClassesPage.jsx:192 | searching a proficiency level finds every class of that level |
| Classes.NullDiscountShowsFullBadge | src/pages/ClassesPage.jsx:250 | with no discount and a base price of 500 the written badge appears while the full price is shown |
| Classes.DiscountBadgeMatchesPrice | src/pages/ClassesPage.jsx:250 | the intended badge appears only with the discounted price, never without a discount, and agrees with the written one where a discount exists |
| Classes.CreateForm | src/pages/ClassesPage.jsx:102-113 | the new class form is a blank, active, beginners' class |
| Classes.EditForm | src/pages/ClassesPage.jsx:90-101 | every text field with `|| ''`, prices and duration as their text (a non-zero duration reads back), active with `?? true` |
| Classes.Payload | src/pages/ClassesPage.jsx:122-132 | the base price parsed; the discount null exactly when its field is empty, otherwise parsed; the duration through `parseInt`; every other field as typed |
| Classes.EditRoundTrip | src/pages/ClassesPage.jsx:90-132 | an untouched edit sends back the stored duration, null as discount exactly when there was none, and the active flag `?? true` |
| Classes.BlankClassPayload | src/pages/ClassesPage.jsx:102-132 | the untouched create form sends a beginners' class with no discount and a NaN duration |
| Exhibitions.Load | src/pages/ExhibitionsPage.jsx:61-71 | the content `|| []` and the server's pagination with this page's size |
| Exhibitions.EmptyAnswerGivesOnePage | src/pages/ExhibitionsPage.jsx:65-71 | an empty answer shows no rows and the footer object page 0 of 1, no elements, the page's size; it is well formed, and read with the table's button rule both buttons are disabled |
| Exhibitions.FilteredExhibitions | src/pages/ExhibitionsPage.jsx:172-181 | an empty term keeps every row; otherwise the search keeps, in order and as many as there are, exactly the exhibitions whose name, description, location or category includes the term |
| Exhibitions.LocationSearchFindsExhibition | src/pages/ExhibitionsPage.jsx:179 | searching a place finds every exhibition held there |
| Exhibitions.CreateForm | src/pages/ExhibitionsPage.jsx:100-112 | the new exhibition form is blank and active, with counts that read back as 0 |
| Exhibitions.EditForm | src/pages/ExhibitionsPage.jsx:87-99 | every text field with `|| ''`, counts that read back as the stored number `|| 0`, active with `?? true` |
| Exhibitions.Payload | src/pages/ExhibitionsPage.jsx:121-125 | every field as typed, the two counts through `parseInt`, an empty count as NaN |
| Exhibitions.Submit | src/pages/ExhibitionsPage.jsx:117-133 | create in create mode, otherwise an update of the selected exhibition; nothing exactly when none is selected outside create mode |
| Exhibitions.BlankExhibitionIsSent | src/pages/ExhibitionsPage.jsx:100-128 | the untouched create form is sent, with no name or dates and zero counts |
| Exhibitions.EditRoundTrip | src/pages/ExhibitionsPage.jsx:87-131 | an untouched edit sends an update carrying the stored counts `|| 0` and active `?? true` |
| Events.CreateForm | src/pages/EventsPage.jsx:83-100 | a new event is a free, public workshop, open for registration, with empty title and dates |
| Events.DateTimeInput | src/pages/EventsPage.jsx:70-71 | a stored date-time cut to at most 16 characters, a prefix of it |
| Events.EditForm | src/pages/EventsPage.jsx:65-82 | every text field with `|| ''`, date-times cut to the minute, the three flags with `??`, the fee with `|| 0`, the limit as its text (a non-zero limit reads back) |
| Events.EditKeepsExplicitFalse | src/pages/EventsPage.jsx:73-80 | an event stored private, closed and offline opens with all three boxes unticked |
| Events.MaxParticipants | src/pages/EventsPage.jsx:120 | an empty limit is sent as null, and the numeral of `n` as `n` |
| Events.Payload | src/pages/EventsPage.jsx:116-122 | every text field as typed, the date-times through `toIso`, the flags and fee carried over, the limit through `MaxParticipants` |
| Events.Submit | src/pages/EventsPage.jsx:105-130 | nothing while a required field is empty; otherwise a create, or an update of the selected event |
| Events.BlankEventIsRefused | src/pages/EventsPage.jsx:109-112 | the untouched create form is refused |
| Events.EditRoundTrip | src/pages/EventsPage.jsx:65-128 | an untouched edit of a complete event sends its update with the stored limit, or null for none or 0 |
| Events.FilteredEvents | src/pages/EventsPage.jsx:210-220 | an empty term keeps every row; otherwise the search keeps, in order and as many as there are, exactly the events whose title, description, location, type or status includes the term |
| Subscriptions.LoadEnrollments | src/pages/SubscriptionsPage.jsx:29-37 | exactly the approved enrollments of the response, in order, as many as there are; a failure keeps the list |
| Subscriptions.OptionsAreApproved | src/pages/SubscriptionsPage.jsx:33 | every enrollment the form offers is approved |
| Subscriptions.ActionRequest | src/pages/SubscriptionsPage.jsx:62-81 | Renew of an active row renews its enrollment at once; Cancel of an active row cancels it only when confirmed; View sends nothing |
| Subscriptions.InactiveRowsSendNothing | src/pages/SubscriptionsPage.jsx:155 | a row that is not active sends nothing, whatever the click |
| Subscriptions.CreateForm | src/pages/SubscriptionsPage.jsx:86-94 | the form starts on today's month and year, eight sessions, no enrollment |
| Subscriptions.Submit | src/pages/SubscriptionsPage.jsx:103-109 | month, year and sessions through `parseInt` (a number's own numeral reads back as it), enrollment and notes as typed |
| Subscriptions.UntouchedFormPayload | src/pages/SubscriptionsPage.jsx:86-109 | the untouched form asks for eight sessions in the current month and year |
| Subscriptions.AttendedLabel | src/pages/SubscriptionsPage.jsx:132 | the Attended column has a slash after a non-empty first number |
| Subscriptions.FractionReadsBack | src/pages/SubscriptionsPage.jsx:132 | both numbers of "x/y" read back with `parseInt` |
| Subscriptions.AttendedLabelReadsBack | src/pages/SubscriptionsPage.jsx:132 | the number before the slash is the attended count `|| 0` |
| Subscriptions.MissingAllowanceShowsEight | src/pages/SubscriptionsPage.jsx:132 | a row without an allowance shows "x/8" |
| Sidebar.NavGroups | src/components/layout/Sidebar.jsx:22-53 | three groups: the untitled main group, then lms and shop |
| Sidebar.InitialExpanded | src/components/layout/Sidebar.jsx:14 | lms and shop start expanded, each once |
| Sidebar.Toggle | src/components/layout/Sidebar.jsx:16-20 | the clicked group's membership flips and no other group's changes; an expanded group is dropped, a collapsed one appended |
| Sidebar.ToggleKeepsDistinct | src/components/layout/Sidebar.jsx:16-20 | toggling keeps the list free of repeated ids |
| Sidebar.ToggleTwice | src/components/layout/Sidebar.jsx:16-20 | toggling a group twice restores which groups are expanded |
| Sidebar.VisibilityRule | src/components/layout/Sidebar.jsx:121-124 | an untitled group always shows its links; a titled one exactly when expanded |
| Sidebar.FirstRenderAndToggle | src/components/layout/Sidebar.jsx:14-20 | on first render every group shows its links; clicking a titled group hides its own and leaves the others |

## Left out

- Network calls, toasts, navigation and timers: each server answer is an argument of type `Fetch`. The 300 ms and 500 ms search debounces are not modelled; only the final term is.
- `window.confirm`: the user's answer is a boolean argument.
- Dates and the clock: `new Date()` is a `Today` argument for the subscription form and a `now` argument for the tracking number. `new Date(x).toISOString()` of the event dates is a `toIso` function argument. The month names of the history selector are not modelled.
- `parseFloat`: prices are sent through a `parseFloat` function argument, since floating point is outside the model.
- Events.Payload: the fee is carried as the form's number. `parseFloat` of a typed fee is not modelled.
- The discount percentage `Math.round(...)` and `toFixed(2)` on amounts: these are floating-point display.
- Prices and amounts are whole numbers (`int`). A fractional price, such as one `parseFloat` gives at src/pages/ArtWorksPage.jsx:152, is outside `Catalog.PriceText`, `Catalog.DiscountRoundTrip`, `Orders.LineTotal` and `CreateOrder.Total`.
- The `Pagination` component is not part of this model. It draws the footer of the galleries, art works, classes and exhibitions pages (src/pages/GalleriesPage.jsx:412, src/pages/ArtWorksPage.jsx:331, src/pages/ClassesPage.jsx:330, src/pages/ExhibitionsPage.jsx:304). For those pages the model states the footer object the page builds. Where a lemma also speaks of the page buttons, it uses the table's rule (`DataTable.PrevDisabled`, `DataTable.NextDisabled`) as a stand-in. The galleries page builds the same object as the review page, so the finding on the review footer's size applies to it as well.
- `toLowerCase`: only ASCII letters are folded. String `<` compares characters as Dafny does, not as UTF-16 code units.
- The table sort: cells are compared as strings. JavaScript's `<` on mixed numbers and strings is not modelled.
- The `mappedStudents` list of the stored-attendance load: it is computed and never used.
- Rendering-only files: the modal shell, footer, layout, dashboard, payments page and image upload. Only the short order id they share is modelled (`Listing.ShortId`).
- Category lists, category modals and delete confirmations: each is a plain fetch or delete with no logic beyond the request.
- `handleStatusUpdate` of the sessions page: it is called by the Start, Complete and Cancel buttons but never defined, so a click throws. The buttons are modelled by the status they ask for (`Sessions.Target`).
- The sessions and galleries form submissions: they post the form's fields as typed. The session fields are covered by `Sessions.EditFormRoundTrip`.
- The reject reason of the student-submission review: its text box is never sent with the rejection, so it has no effect.
- Validation of `required` inputs on the subscription, exhibition, class and art work forms: the Save button sits outside the form, so the browser never checks them. The model submits whatever is typed.
- The product picker's fetch of a page of 20: only its local filter is modelled (`CreateOrder.ProductMatches`).
- The create-or-update choice of the class and art work forms: it is the same as `Exhibitions.Submit`, so only the bodies are modelled.

## Findings

| source | as written | input that shows it | evidently intended | confidence | as-written member | corrected member |
|---|---|---|---|---|---|---|
| src/components/CreateOrderModal.jsx:417 | the Confirm button is given `isLoading={loading}`, a prop `Button` (src/components/ui/FormComponents.jsx:47-57,75) never reads, so it stays enabled while the order request is in flight | `loading == true` on step 3: the button is still enabled, so a second click posts the order twice (`CreateOrder.ConfirmStaysEnabledWhileSubmitting`) | `loading={loading}`, which disables the button while submitting | high, not executed | CreateOrder.ConfirmDisabledAsWritten | CreateOrder.ConfirmDisabled |
| src/pages/ClassesPage.jsx:250 | the discount badge tests `discountPrice < basePrice` with no check that a discount exists | `discountPrice: null, basePrice: 500`: `null < 500` holds, so a "-100%" badge shows next to the full price of 500 (`Classes.NullDiscountShowsFullBadge`) | `discountPrice && discountPrice < basePrice`, as the art works cards test | high, not executed | Classes.NullDiscountShowsFullBadge | Classes.DiscountBadgeMatchesPrice |
| src/pages/LmsGalleryPage.jsx:72 | the footer's size is `response.size || 20`, which is the 100 rows requested at line 58, while its page count is `Math.ceil(filtered / 20)` and the table shows every filtered row | 30 pending entries, server size 100, number 0: the footer reads "1–30 of 30" and "1 / 2" with Next enabled, and the next page shows nothing new (`LmsGallery.ReviewFooterOffersMissingPage`) | count the pages with the size the footer shows | medium, not executed | LmsGallery.ReviewFooterOffersMissingPage | LmsGallery.IntendedFooterIsWellFormed |
