# Activity aggregation of the Hobbies page

A Dafny model of the only real logic in the self-care tracker's
`HobbiesPage` component. The user's activities are fetched from the store and
sorted by start time. They are split into an "Incomplete" and a "Completed"
column, and summed into a "Weekly Hours" figure. The submit handler of the
"Add Activity" form refuses to post when a time is missing (the browser's own
`required` checks on the inputs are not modelled). Network calls and the clock are parameters, so
everything is pure list processing over an immutable `Activity` record:

- `Activities`: the record. Timestamps are integer milliseconds. The stored
  `duration` (hours) is `Option<real>`.
- `Seqs`: an order-preserving filter (`Array.prototype.filter`) and the
  sub-sequence relation.
- `Ordering`: the stable sort ascending by `startTime` (`Array.prototype.sort`
  with the comparator `(a, b) => new Date(a.startTime) - new Date(b.startTime)`,
  stable since ECMAScript 2019). It is proved
  sorted, a permutation, and tie-preserving. It is also proved to be the ONLY
  such arrangement, so any conforming engine gives the same list.
- `Partition`: the two columns.
- `WeeklySummary`: the start of the week, the `forEach` running sum (a method
  with a loop), and a reference total that the running sum is proved equal to.
- `ActivityForm`: `handleChange` and the guard of `handleSubmit`.
- `Completion`: the update `handleComplete` asks the store to make.
- `HobbiesPage`: the refresh after a fetch, tying the parts together.
- The two rules of the total live in `Activities.Hours` (`activity.duration || 0`:
  a missing duration adds 0) and `WeeklySummary.CountsToward` (`completed` and
  `startTime >= startOfWeek`).
- `Scenarios`: worked examples for Wednesday 2024-06-12T10:00:00Z.

Three behaviours of the code a reader may not expect:

- The week does not start at Sunday midnight. `setDate(getDate() - getDay())`
  keeps `now`'s time of day, so the week starts on the latest Sunday at the
  same clock time. A completed activity on Sunday morning before that time is
  not counted (`Scenarios.CurrentWeekExample`).
- There is no upper bound. A completed activity dated in a later week still
  counts (`WeeklySummary.FutureActivityCounts`).
- The total adds the stored `duration`. It does not recompute end minus start.
  It is guaranteed non-negative when no stored duration is negative; a negative
  stored duration on a qualifying activity lowers it.

## Model

| member | source | states |
|---|---|---|
| `Seqs.Filter` | frontend/src/pages/Profile/HobbiesPage.jsx:87-88 | the kept elements are exactly those of the input satisfying the predicate, each with its original multiplicity, and no more of them than the input holds |
| `Seqs.FilterIsSubsequence` | frontend/src/pages/Profile/HobbiesPage.jsx:87-88 | a filter's result is an order-preserving sub-sequence of its input |
| `Ordering.Insert` | frontend/src/pages/Profile/HobbiesPage.jsx:29-31 | inserting into a sorted list keeps it sorted and adds exactly that one activity |
| `Ordering.InsertTies` | frontend/src/pages/Profile/HobbiesPage.jsx:29-31 | the inserted activity is placed before the activities that tie with it, and the order of all other ties is unchanged |
| `Ordering.SortByStart` | frontend/src/pages/Profile/HobbiesPage.jsx:29-31 | the sorted list is ascending by start time, is a permutation of the fetched list, and keeps the fetched relative order of activities with equal start times |
| `Ordering.SortedTiesUnique` | frontend/src/pages/Profile/HobbiesPage.jsx:29-31 | two lists sorted by start time that agree on the order of every group of ties are equal |
| `Ordering.StableSortIsUnique` | frontend/src/pages/Profile/HobbiesPage.jsx:29-31 | every sorted, tie-preserving arrangement of the fetched list equals the model's sort, so the result does not depend on the engine's algorithm |
| `Ordering.SortOfSortedIsIdentity` | frontend/src/pages/Profile/HobbiesPage.jsx:29-31 | sorting a list already ascending by start time returns it unchanged |
| `Ordering.SortIsIdempotent` | frontend/src/pages/Profile/HobbiesPage.jsx:29-31 | sorting twice gives the same list as sorting once |
| `Ordering.SubsequenceOfSortedIsSorted` | frontend/src/pages/Profile/HobbiesPage.jsx:87-88 | any order-preserving sub-sequence of a list sorted by start time is sorted |
| `Ordering.StartingAtFilter` | frontend/src/pages/Profile/HobbiesPage.jsx:87-88 | taking the ties at one start time commutes with any other filter |
| `Ordering.SortThenFilter` | frontend/src/pages/Profile/HobbiesPage.jsx:29-31 | filtering the sorted list gives the stable sort of the filtered fetched list |
| `Partition.Incomplete` | frontend/src/pages/Profile/HobbiesPage.jsx:87 | an activity is in the Incomplete column iff it is in the list and not completed |
| `Partition.Completed` | frontend/src/pages/Profile/HobbiesPage.jsx:88 | an activity is in the Completed column iff it is in the list and completed |
| `Partition.PartitionIsPermutation` | frontend/src/pages/Profile/HobbiesPage.jsx:87-88 | the two columns are disjoint, and together they hold every activity of the list exactly as often as the list does |
| `Partition.PartitionKeepsOrder` | frontend/src/pages/Profile/HobbiesPage.jsx:87-88 | each column is an order-preserving sub-sequence of the list |
| `Partition.PartitionOfSortedIsSorted` | frontend/src/pages/Profile/HobbiesPage.jsx:87-88 | both columns of a list sorted by start time are sorted by start time |
| `Partition.ColumnsOfSortedList` | frontend/src/pages/Profile/HobbiesPage.jsx:29-32 | each displayed column equals the stable sort of the matching fetched activities |
| `WeeklySummary.StartOfWeek` | frontend/src/pages/Profile/HobbiesPage.jsx:75-77 | the start of the week is not after `now` and less than seven days before it. It equals `now` exactly on a Sunday, and it has `now`'s time of day |
| `WeeklySummary.StartOfWeekIsLatestSunday` | frontend/src/pages/Profile/HobbiesPage.jsx:75-77 | the start of the week is a Sunday at `now`'s time of day, and no later such Sunday exists at or before `now` |
| `WeeklySummary.TotalOfOne` | frontend/src/pages/Profile/HobbiesPage.jsx:80-82 | a single activity contributes its hours (a missing duration counts as 0) iff it is completed and starts no earlier than the start of the week |
| `WeeklySummary.CalculateWeeklyHours` | frontend/src/pages/Profile/HobbiesPage.jsx:74-85 | the loop's running sum equals the hours of exactly the qualifying activities, and is 0 for an empty list |
| `WeeklySummary.TotalWithInserted` | frontend/src/pages/Profile/HobbiesPage.jsx:79-83 | adding an activity anywhere changes the total by its hours when it qualifies, and leaves the total unchanged otherwise |
| `WeeklySummary.IgnoredActivityIsNeutral` | frontend/src/pages/Profile/HobbiesPage.jsx:80 | adding or removing an activity that is not completed, or that starts before the start of the week, leaves the weekly total unchanged |
| `WeeklySummary.FutureActivityCounts` | frontend/src/pages/Profile/HobbiesPage.jsx:80 | inserting a completed activity whose start time is at or after `now`, with no upper limit, raises the weekly total by exactly that activity's hours |
| `WeeklySummary.WeeklyHoursNonNegative` | frontend/src/pages/Profile/HobbiesPage.jsx:79-83 | the weekly total is non-negative whenever no stored duration is negative |
| `WeeklySummary.SumHoursPermutation` | frontend/src/pages/Profile/HobbiesPage.jsx:79-83 | the summed hours do not depend on the order of the list |
| `WeeklySummary.WeeklyHoursIgnoresOrder` | frontend/src/pages/Profile/HobbiesPage.jsx:29-33 | computing the total over the sorted list gives the same figure as over the fetched list, or over any other reordering |
| `WeeklySummary.WeeklyHoursOfCompletedColumn` | frontend/src/pages/Profile/HobbiesPage.jsx:80 | the total over the Completed column equals the total over the whole list |
| `ActivityForm.Change` | frontend/src/pages/Profile/HobbiesPage.jsx:43-45 | the named field takes the new value and every other field keeps its value |
| `ActivityForm.HandleSubmit` | frontend/src/pages/Profile/HobbiesPage.jsx:47-62 | no request is sent iff the start or end time is empty. In that case the form is unchanged and nothing is refetched. Otherwise the form is posted as it stands. The list is refetched and the form reset iff the server accepts |
| `ActivityForm.NoDoubleSubmit` | frontend/src/pages/Profile/HobbiesPage.jsx:49-59 | after a successful submission, submitting the reset form sends nothing |
| `ActivityForm.GuardReadsOnlyTimes` | frontend/src/pages/Profile/HobbiesPage.jsx:49 | whether a request is sent depends on the two time fields alone |
| `ActivityForm.FilledTimesAreSent` | frontend/src/pages/Profile/HobbiesPage.jsx:43-56 | once both times have been typed in as non-empty text, submitting posts exactly the current form |
| `Completion.MarkComplete` | frontend/src/pages/Profile/HobbiesPage.jsx:64-71 | the list keeps its length and order. Only the `completed` flag changes, and afterwards it is set exactly on the activities that were already completed or carry the id |
| `Completion.MarkCompleteIdempotent` | frontend/src/pages/Profile/HobbiesPage.jsx:64-71 | completing the same activity twice leaves the same list as completing it once |
| `Completion.MarkCompleteKeepsOrder` | frontend/src/pages/Profile/HobbiesPage.jsx:64-71 | completion keeps a sorted list sorted |
| `Completion.CompletionMovesToDoneColumn` | frontend/src/pages/Profile/HobbiesPage.jsx:64-71 | after completion, every activity carrying that id is absent from the not-completed column and present, with its flag set, in the completed column |
| `Completion.CompletionNeverLowersTotal` | frontend/src/pages/Profile/HobbiesPage.jsx:64-83 | with no negative stored duration, completing an activity never lowers the weekly total |
| `HobbiesPage.Refresh` | frontend/src/pages/Profile/HobbiesPage.jsx:28-33 | after a fetch, the shown list is the stable sort of the fetched list. The columns are the sorted incomplete and completed activities and together hold every fetched activity. The weekly total is that of the fetched list |
| `Scenarios.WeekStartsAtNowsTimeOfDay` | frontend/src/pages/Profile/HobbiesPage.jsx:75-77 | for Wednesday 2024-06-12 10:00 the week starts on Sunday 2024-06-09 at 10:00, not at midnight |
| `Scenarios.CurrentWeekExample` | frontend/src/pages/Profile/HobbiesPage.jsx:79-83 | Sunday 08:00, a pending activity, and last week's activity add nothing. Monday (1.5 h) and a completed July activity (2.0 h) add 3.5 h |
| `Scenarios.TwoActivitiesExample` | frontend/src/pages/Profile/HobbiesPage.jsx:79-83 | two qualifying activities of 2.0 h and 3.25 h give 5.25 h |

## Left out

- `backend/middleware/authMiddleware.js`: token checking is a call into a JWT library plus a database lookup. `backend/middleware/authMiddleware.js` is not part of this model.
- The axios GET/POST/PUT requests, `localStorage`, React state, context and effect hooks, rendering, CSS and `toFixed` formatting are I/O and presentation. The POST's outcome is the `serverAccepts` parameter of `HandleSubmit`. A fetched list is the `fetched` parameter of `Refresh`.
- `Completion.MarkComplete`: the store's update handler is not part of this model. The model applies the `{ completed: true }` update the page sends to the record with that id.
- Date parsing with `new Date(string)`, local time zones and daylight saving: timestamps are integer milliseconds, the weekday is an input, and a day is a fixed 86,400,000 ms.
- Floating point: durations are exact reals and timestamps exact integers. So rounding in the running sum is not modelled. Neither is a `NaN` comparator result for an unparsable date, nor a `NaN` duration (which `|| 0` would also turn into 0).
- The activity type options of the form are offered but never checked by any logic. They stay an opaque string.
- ActivityForm.HandleSubmit: the browser's `required` checks on the title, start-time and end-time inputs, which cancel the submit before the handler runs, are not modelled; the model covers only the handler's own guard at line 49, so a form with an empty title but both times is posted.
- `fetchActivities` does nothing without a logged-in user. That check is about the authentication context and is left out with it.

