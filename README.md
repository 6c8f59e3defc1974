# Timesheet approval core, modelled in Dafny

This project models the record-list logic of a browser timesheet tool. Contractors submit
hours-worked entries against projects. Administrators search and filter the entries, then
approve, reject or send them back for review. A route guard sends each visitor to the login page
or to the dashboard of their role.

With rendering and local-storage I/O removed, what is left is pure list logic plus one class:

- `Timesheets` (`timesheet.dfy`): the stored record, its three statuses, the submission form, and
  the unique-id invariant.
- `AdminDashboard` (`admin_dashboard.dfy`): three things are modelled.
  - The search and filter predicate.
  - `handleAction`, a find-then-map update. It returns `None` when nothing is written.
  - The per-status counts and the distinct contractor list.
  The module also describes the approve/reject/review buttons as a small state machine.
- `ContractorDashboard` (`contractor_dashboard.dfy`): the "my timesheets" filter, the form guard,
  max+1 id generation and the new pending entry. Also a `Dashboard` class holding the stored list
  and the form. Its `HandleSubmit` validates, appends and resets.
- `ProtectedRoute` (`protected_route.dfy`): the guard decision and the route table of `App.tsx`.
- Support modules:
  - `Seqs`: `Array.prototype.filter`, order-preserving subsequences, and the distinct elements in
    `Set` insertion order.
  - `Text`: ASCII lower-casing and `String.prototype.includes`.
  - `Auth`: the user fields the core reads.
  - `Wrappers`: `Option`.

Modelling choices:

- Timestamps are `string` parameters (`now`).
- The stored list is a `seq<Timesheet>` parameter, or the `timesheets` field of `Dashboard`.
- Timesheet ids are `nat`. The source stores them as decimal strings and relies on `Math.max` to
  coerce them back.
- A missing user is `None`. The source writes `user?.id`, which is then `undefined`. So a record
  submitted without a user has no contractor id, and only such records match the
  "my timesheets" filter when there is no user.
- The admin filters are strings, as in the source. `"all"` switches a filter off, so a contractor
  literally named `all` cannot be selected on its own.
- `handleAction` maps over the whole list. It therefore reviews every record carrying the id,
  not just the first one `find` returned. The model does the same.
- The "review" action sets the status to pending whatever it was. It stamps reviewer and time
  like the other two actions. This is modelled as written.

## Model

| member | source | states |
|---|---|---|
| `Seqs.Filter` | src/pages/AdminDashboard.tsx:26-36 | result is no longer than the input; an element is kept iff it is in the input and satisfies the predicate |
| `Seqs.FilterIsSubsequence` | src/pages/AdminDashboard.tsx:26-36 | a filtered list is an order-preserving subsequence of the input |
| `Seqs.FilterMultiplicity` | src/pages/AdminDashboard.tsx:26-36 | every copy of a kept value survives and no copy of a dropped value does |
| `Seqs.FilterAppend` | src/pages/ContractorDashboard.tsx:38-40 | filtering distributes over concatenation |
| `Seqs.FilterKeepsAll` | src/pages/AdminDashboard.tsx:26-36 | a predicate true of every element keeps the whole list |
| `Seqs.FilterAgree` | src/pages/AdminDashboard.tsx:98-103 | filters that agree on the elements give the same list |
| `Seqs.FilterFilter` | src/pages/AdminDashboard.tsx:35 | two successive filters, in either order, equal one filter by their conjunction |
| `Seqs.SubsequenceExtendRight` | src/pages/AdminDashboard.tsx:23 | a subsequence stays one when the larger list grows at the end |
| `Seqs.SubsequenceExtendBoth` | src/pages/AdminDashboard.tsx:23 | appending the same element to both keeps the subsequence relation |
| `Seqs.Distinct` | src/pages/AdminDashboard.tsx:23 | `Array.from(new Set(xs))`: no duplicates, and the same members as the input |
| `Seqs.DistinctOrder` | src/pages/AdminDashboard.tsx:23 | insertion order: of two listed elements, the earlier occurs in the input before the later one's first occurrence |
| `Seqs.DistinctIsSubsequence` | src/pages/AdminDashboard.tsx:23 | the distinct list is an order-preserving subsequence of the input |
| `Text.LowerChar` | src/pages/AdminDashboard.tsx:28-30 | 'A'..'Z' map to the letter 32 code points higher ('a'..'z'); every other character is unchanged; the result is never upper case |
| `Text.ToLower` | src/pages/AdminDashboard.tsx:28-30 | same length, each character lower-cased |
| `Text.ToLowerIdempotent` | src/pages/AdminDashboard.tsx:28-30 | lower-casing twice equals lower-casing once |
| `Text.Includes` | src/pages/AdminDashboard.tsx:28-30 | `String.prototype.includes`: the needle is a prefix of the haystack or is included in its tail |
| `Text.IncludesIffOccurs` | src/pages/AdminDashboard.tsx:28-30 | `includes` holds iff the needle occurs at some index of the haystack |
| `Text.IncludesEmpty` | src/pages/AdminDashboard.tsx:28-30 | every string includes the empty search term |
| `Timesheets.StatusName` | src/types/timesheet.ts:9 | the stored status string: one of "pending", "approved", "rejected" |
| `Timesheets.StatusNameInjective` | src/types/timesheet.ts:9 | distinct statuses have distinct stored names, and none is the filter value "all" |
| `AdminDashboard.MatchesSearch` | src/pages/AdminDashboard.tsx:27-30 | the lower-cased term occurs in the lower-cased contractor name, project or comments |
| `AdminDashboard.MatchesStatus` | src/pages/AdminDashboard.tsx:32 | the status filter is "all" or the record's stored status name |
| `AdminDashboard.MatchesContractor` | src/pages/AdminDashboard.tsx:33 | the contractor filter is "all" or the record's contractor name |
| `AdminDashboard.Matches` | src/pages/AdminDashboard.tsx:35 | all three conditions hold |
| `AdminDashboard.FilteredTimesheets` | src/pages/AdminDashboard.tsx:26-36 | an order-preserving subsequence of the stored list; a record is shown iff search, status and contractor conditions all hold, with its full multiplicity |
| `AdminDashboard.UnfilteredShowsAll` | src/pages/AdminDashboard.tsx:27-33 | empty search term and both filters on "all" show the whole list |
| `AdminDashboard.FiltersCompose` | src/pages/AdminDashboard.tsx:27-35 | the three conditions applied as separate filters, in either order, give the table rows |
| `AdminDashboard.NextStatus` | src/pages/AdminDashboard.tsx:45-57 | approve gives approved, reject gives rejected, review gives pending, whatever the prior status |
| `AdminDashboard.Reviewed` | src/pages/AdminDashboard.tsx:45-64 | the action's status, reviewedAt = now, reviewedBy = "Admin User"; id, contractor, date, project, hours, comments and submittedAt unchanged |
| `AdminDashboard.Find` | src/pages/AdminDashboard.tsx:39 | `None` iff no record has the id; otherwise the first record with the id |
| `AdminDashboard.HandleAction` | src/pages/AdminDashboard.tsx:38-67 | nothing written iff no record has the id; otherwise same length, records with other ids unchanged, records with the id reviewed |
| `AdminDashboard.StoredAfter` | src/pages/AdminDashboard.tsx:39-69 | the stored list after the action: same length, every record with the id reviewed, every other record unchanged (so the old list when no record has the id) |
| `AdminDashboard.ActionKeepsIds` | src/pages/AdminDashboard.tsx:43-67 | length and every id kept, so unique ids stay unique |
| `AdminDashboard.ActionOnMissingIdChangesNothing` | src/pages/AdminDashboard.tsx:39-40 | an unknown id writes nothing and leaves the stored list as it was |
| `AdminDashboard.ActionIdempotent` | src/pages/AdminDashboard.tsx:43-64 | repeating an action equals doing it once at the later time |
| `AdminDashboard.OfferedActions` | src/pages/AdminDashboard.tsx:271-297 | review is always offered; approve and reject are offered iff the record is pending |
| `AdminDashboard.Path` | src/pages/AdminDashboard.tsx:45-57 | the statuses visited: one more than the actions, each the status its action sets |
| `AdminDashboard.TerminalOnlyLeavesByReview` | src/pages/AdminDashboard.tsx:271-297 | with only the offered buttons, an approved or rejected record leaves that status only by review, to pending |
| `AdminDashboard.TerminalSwitchPassesPending` | src/pages/AdminDashboard.tsx:271-297 | going from one terminal status to the other through the buttons passes through pending |
| `AdminDashboard.CountStatus` | src/pages/AdminDashboard.tsx:99-101 | the number of records with a status: at most the list length, and zero iff no record has it |
| `AdminDashboard.CountsPartition` | src/pages/AdminDashboard.tsx:98-103 | pending + approved + rejected counts equal the list length |
| `AdminDashboard.CountIsStatusFilterSize` | src/pages/AdminDashboard.tsx:98-103 | each count equals the number of rows the status filter alone shows |
| `AdminDashboard.GetStatusCounts` | src/pages/AdminDashboard.tsx:98-103 | counts sum to the length, and each equals the size of its status filter |
| `AdminDashboard.ContractorNames` | src/pages/AdminDashboard.tsx:23 | the names of the records, position by position |
| `AdminDashboard.Contractors` | src/pages/AdminDashboard.tsx:23 | no duplicates; a name is listed iff some record has it; of two listed names the earlier is carried by a record before any record carries the later |
| `AdminDashboard.ActionKeepsContractors` | src/pages/AdminDashboard.tsx:43-67 | an admin action never changes the contractor list |
| `ContractorDashboard.BelongsTo` | src/pages/ContractorDashboard.tsx:39 | contractor id equals the user's id or contractor name equals the user's name; with no user, only a record without contractor id |
| `ContractorDashboard.UserTimesheets` | src/pages/ContractorDashboard.tsx:38-40 | in stored order, exactly the records that belong to the user, each as often as it is stored |
| `ContractorDashboard.IsValidForm` | src/pages/ContractorDashboard.tsx:53 | the form is accepted iff date and project are non-empty and hours are positive |
| `ContractorDashboard.MaxId` | src/pages/ContractorDashboard.tsx:68 | an upper bound of the ids that some record attains |
| `ContractorDashboard.NextId` | src/pages/ContractorDashboard.tsx:67-69 | 1 for an empty list, otherwise some id plus one and greater than every id |
| `ContractorDashboard.NextIdIsFresh` | src/pages/ContractorDashboard.tsx:67-69 | no stored record has the new id |
| `ContractorDashboard.SubmitterName` | src/pages/ContractorDashboard.tsx:75 | the user's name, or "" without a user |
| `ContractorDashboard.NewEntry` | src/pages/ContractorDashboard.tsx:72-84 | pending, unreviewed, submitted at now; date, project, hours, comments from the form; user id and name, or none and "" |
| `ContractorDashboard.SubmitKeepsIdsUnique` | src/pages/ContractorDashboard.tsx:67-87 | unique ids stay unique after appending the new entry |
| `ContractorDashboard.SubmittedEntryIsListed` | src/pages/ContractorDashboard.tsx:38-40 | the submitter's list after a submission is the old one plus the new entry at the end |
| `ContractorDashboard.Dashboard.constructor` | src/pages/ContractorDashboard.tsx:23-37 | the stored list as given and a blank, hidden form |
| `ContractorDashboard.Dashboard.HandleSubmit` | src/pages/ContractorDashboard.tsx:49-110 | invalid form (empty date, empty project or hours <= 0): nothing changes; valid: exactly one new entry appended with the next id, form reset and hidden, unique ids kept |
| `ProtectedRoute.RoleOf` | src/components/ProtectedRoute.tsx:17-19 | `user?.role`: present iff there is a user, and then the user's role |
| `ProtectedRoute.DashboardPath` | src/components/ProtectedRoute.tsx:19 | "/contractor" iff the role is contractor, "/admin" otherwise |
| `ProtectedRoute.Guard` | src/components/ProtectedRoute.tsx:10-24 | login redirect when unauthenticated; children when no role is required or the role matches; otherwise redirect to "/contractor" for contractors and "/admin" for anyone else |
| `ProtectedRoute.RouteElement` | src/App.tsx:26-46 | "/contractor" is guarded by the contractor role and shows the contractor dashboard; "/admin" is guarded by the admin role and shows the admin dashboard; "/login" shows the login page; every other path redirects to login |
| `ProtectedRoute.DashboardPage` | src/App.tsx:29-44 | the page shown by the route the guard sends a user of that role to, guarded by that role |
| `ProtectedRoute.VisitPath` | src/App.tsx:29-44 | a dashboard is only shown to a logged-in user whose role is that dashboard's role |
| `ProtectedRoute.MismatchRedirectRenders` | src/App.tsx:29-44 | a logged-in user sent away from a protected route lands on the route requiring their own role, which renders their dashboard |
| `ProtectedRoute.UnauthenticatedReachesLogin` | src/components/ProtectedRoute.tsx:13-15 | a visitor who is not logged in sees the login page after at most one redirect |
| `ProtectedRoute.AuthenticatedWithoutUserLoops` | src/components/ProtectedRoute.tsx:17-20 | if authentication were reported without a user, "/admin" would redirect to itself |

## Left out

- Local-storage reads and writes and the JSON encoding are I/O. The stored list is a parameter,
  a result, or the `Dashboard.timesheets` field.
- `new Date().toISOString()` reads the clock. The timestamp is the `now` parameter. The source
  reads the clock once per reviewed record inside the `map`. With duplicate ids, those records
  could get different review times; the model gives them all the same `now`.
- Route paths are matched as exact strings. react-router's case-insensitive matching and its
  tolerance of a trailing slash ("/Admin", "/admin/") are library behaviour and are not modelled.
- `ContractorDashboard.NextId`: ids are assumed to stay below 2^53. JavaScript numbers are
  doubles, so at a stored id of 2^53 `Math.max(...) + 1` returns the same number and the new id
  collides. `NextIdIsFresh` and `SubmitKeepsIdsUnique` hold only under that assumption.
- The `Math.max` coercion of string ids to numbers is not modelled. Ids are `nat`, so the NaN a
  non-numeric id would produce cannot arise. The decimal string of the new id is not modelled
  either.
- `Text.ToLower`: lower-cases ASCII letters only. Unicode `toLowerCase` is not modelled.
- Date formatting (`formatDate`) is locale-dependent library behaviour.
- The date picker's "not in the future" rule needs the current date. The HTML min/max/step
  attributes and `parseFloat` belong to the browser.
- `handleInputChange`, the date-picker state, toasts and all rendering are UI state and are not
  modelled.
- `src/contexts/AuthContext` is not part of this model. `Auth.User` keeps only the id, username
  and role the core reads, and the role is assumed to be contractor or admin.
- `StatusBadge`, `Layout` and the login page are presentation. `App.tsx` appears only as the
  route table.
- Concurrent writes from several tabs (last writer wins) are not logic in the code.
