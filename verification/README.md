# Job tracker: the derived state of its views and its job endpoint

A model of the core of a job-application tracker, a Next.js app. It has four parts:

- **The table view** (`app/page.tsx`):
  - the CSV export;
  - the per-status counters;
  - the filtered, searched and sorted list;
  - the "upcoming deadlines" reminders;
  - the normalisation of the add form's inputs;
  - the list of jobs the page holds, which each server answer updates.
- **The kanban board** (`app/board/BoardClient.tsx`):
  - one column per status, each sorted by application date;
  - the drag-and-drop handler, which changes the status at once and puts the old one back when the server refuses;
  - the deadline badges and their four colour bands.
- **The analytics page** (`app/stats/StatsClient.tsx`):
  - eight weekly bars and their counting;
  - the status histogram;
  - the offer and rejection rates;
  - the cumulative series of applications per calendar day.
- **The collection endpoint** (`app/api/jobs/route.ts`):
  - `POST` validates a body, fills in defaults and stores the record for the caller;
  - `GET` lists the caller's records, latest application first.

Modules, one per file:

| module | file | what it holds |
|---|---|---|
| `Wrappers` | `wrappers.dfy` | `Option` |
| `Text` | `text.dfy` | `trim`, `toLowerCase`, `includes`, `slice`, `split` and `join` on strings, with the split/join round trips |
| `Sorting` | `sorting.dfy` | one insertion sort by an integer key, proved to give a sorted permutation |
| `Domain` | `domain.dfy` | the job record, the two enumerations, days-until-a-deadline and the per-status grouping |
| `Csv` | `csv.dfy` | the export, and a reader for the quoted-field form of RFC 4180 that reads the export back |
| `TableView` | `table.dfy` | the table page |
| `Board` | `board.dfy` | the kanban board |
| `Stats` | `stats.dfy` | the analytics page |
| `JobsApi` | `api.dfy` | the endpoint; its store is a sequence of records |

Dates are integers (milliseconds since the epoch). A date the client receives from the server carries its ISO text as well. A date typed by a user is its text together with what `Date.parse` makes of it, or nothing for NaN.

The following are parameters of the model:
- the current time;
- the caller's identity;
- the id the store gives a new record;
- whether the server accepted a board update;
- the week label of a time;
- `Number(...)` of the reminder input.

Behaviour of the code worth knowing, which the model keeps:
- **`GET` with no session.** The handler reads `.id` of an absent user (app/api/jobs/route.ts:10). That throws, and the framework answers with a 500 (`JobsApi.List` gives `Crashed`). Only a session without an id gets the 401.
- **Unknown status or priority in `POST`.** The handler does not check them. It passes them to the store, whose enum refuses them, and the catch-all answers 500. The same holds for an explicit `null` status or priority, and for a deadline text that is not a date (`JobsApi.Accepted`).
- **Urgency badges and the reminder window.** The form starts the reminder window at 2 days (app/page.tsx:150), and the upcoming-deadline list reads a missing window as 2 days (app/page.tsx:219). The board's urgency badges do not look at the reminder window at all (`Board.DeadlineBadges`).
- **The revert after a refused drop.** It sets the card back to the source column's status. This restores the board only when the card was in the source column to begin with (`Board.BoardState.HandleDragEnd`, `Board.RevertRestores`).

## Model

| member | source | states |
|---|---|---|
| Domain.StatusFromName | app/page.tsx:22-28 | the status name lookup is the inverse of the status names: it finds a status exactly for the six names, and the status it finds has that name |
| Domain.PriorityFromName | app/page.tsx:30 | the same for the three priority names |
| Domain.DaysUntil | app/page.tsx:237-239 | days left until a deadline is the least whole number of days that reaches it: `(d-1)·day < target-now <= d·day` |
| Domain.DeadlineTime | app/page.tsx:222-233 | a deadline is used exactly when it is present, not the empty string and parseable, and then its time is the parsed time |
| Domain.WithStatusOccurrences | app/board/BoardClient.tsx:73-75 | the group of a status holds every job of that status as often as the list does, and no job of another status |
| Domain.WithStatus | app/board/BoardClient.tsx:73-75 | a status group holds only jobs of that status and is no longer than the list |
| Domain.StatusPartition | app/page.tsx:186-188 | the six status groups together hold every job exactly once: their sizes add up to the number of jobs |
| Domain.TallyByStatus | app/page.tsx:177-190 | the counting loop gives every status the number of jobs with that status, and the six counters add up to the number of jobs |
| Sorting.SortBy | app/page.tsx:208-211 | sorting gives a permutation of the input (same multiset, same length) in ascending order of the key |
| Text.Trim | app/page.tsx:272 | trimming gives a string with no white space at either end, leaves a trimmed string alone, and gives the empty string exactly for an all-space input |
| Text.TrimIsSlice | app/page.tsx:272 | the trimmed string is a slice `s[i..j]` of the input with only white space before `i` and after `j`; with the trimmed ends this fixes the result |
| Text.Lower | app/page.tsx:202-205 | lower-casing keeps the length and leaves no upper-case ASCII letter; every other character stays in place, and each upper-case letter becomes the lower-case letter at the same place in the alphabet |
| Text.Contains | app/page.tsx:204-205 | `includes`: the empty string and the string itself are contained, and nothing longer than the string is |
| Text.Prefix | app/page.tsx:99 | `slice(0, n)` is the first `n` characters, or the whole string when it is shorter |
| Text.Split | app/page.tsx:275 | splitting gives at least one piece and no piece holds the separator |
| Text.SplitNoSeparator | app/page.tsx:275 | a string without the separator splits into itself alone |
| Text.SplitAtSeparator | app/page.tsx:275 | splitting the text around one separator gives the pieces of the left side followed by those of the right side |
| Text.JoinShape | app/page.tsx:102 | a join is as long as its parts together plus one separator between each two, and starts with the first part |
| Text.JoinSplit | app/page.tsx:274-275 | joining the pieces of a split with the separator gives the string back |
| Text.SplitJoin | app/page.tsx:274-275 | splitting the join of separator-free pieces gives the pieces back |
| Csv.ExportJobsToCsv | app/page.tsx:73-77 | an empty list gives no file; any other list gives one |
| Csv.JobRow | app/page.tsx:94-107 | every data row has as many cells as the header (twelve) |
| Csv.JobRowCells | app/page.tsx:94-107 | company, role, status and priority names in the first four cells; the application, creation and update dates cut to their first ten characters; a deadline that is set (non-empty) cut to ten characters and an absent or empty one as an empty cell; notes and URL as they are, or empty when absent; tags joined with "; " |
| Csv.EscapeLength | app/page.tsx:111 | escaping lengthens a cell by exactly its number of quotes |
| Csv.EscapeWithoutQuotes | app/page.tsx:111 | a cell without quotes is written unchanged inside its quotes |
| Csv.QuoteCell | app/page.tsx:111 | a written cell starts and ends with a quote and holds the escaped cell between them |
| Csv.ReadEscaped | app/page.tsx:111 | an escaped cell followed by its closing quote reads back as the cell, with the doubled quotes halved |
| Csv.CellRoundTrip | app/page.tsx:111 | stripping the outer quotes of a quoted cell and halving its doubled quotes gives the original cell |
| Csv.ReadFormattedRow | app/page.tsx:110-112 | a row written as quoted cells joined by commas reads back as its cells |
| Csv.ReadDocument | app/page.tsx:109-113 | rows joined with CRLF read back as exactly those rows |
| Csv.ExportRoundTrip | app/page.tsx:73-113 | the export of a non-empty list reads back as the header row followed by one row per job, in list order |
| Csv.ExportedCells | app/page.tsx:73-113 | an export reads back as `jobs.length + 1` rows: the header first, then in row `i + 1` the cells of job `i` |
| TableView.MatchingOccurrences | app/page.tsx:193-207 | the three filters keep each passing job as often as the list holds it and drop every other job |
| TableView.Matching | app/page.tsx:193-207 | every job the filters keep passes all three filters, and no more jobs come out than went in |
| TableView.MatchingAll | app/page.tsx:193-207 | when every job passes, the filters give the list back unchanged |
| TableView.SearchFacts | app/page.tsx:200-206 | an all-space search lets every job through; the company's name, in any ASCII case, finds the job; a non-blank search longer than both company and role finds nothing |
| TableView.VisibleJobs | app/page.tsx:192-212 | the visible list is ordered by application date, most recent first, and is a permutation of the jobs that pass the filters |
| TableView.VisibleJobsExactly | app/page.tsx:192-212 | a job is shown exactly when it is in the list and passes the status filter, the priority filter and the search, as often as it is listed |
| TableView.NoFilterShowsAll | app/page.tsx:195-201 | with both filters on "all" and a search of white space only, the view shows the whole list |
| TableView.DueEntry | app/page.tsx:235-242 | one deadline's entry is kept exactly when the deadline is usable and `-1 <= daysLeft <= window`; it then carries the deadline's time and its days left |
| TableView.DueEntries | app/page.tsx:219-242 | a job has at most two kept entries; each lies in the window (the stored value, 0 included, or 2 when none is stored); the assessment's entry comes before the interview's |
| TableView.Upcoming | app/page.tsx:215-251 | every reminder is for a listed job and carries that job's kept entries, which are never empty; there are at most as many reminders as jobs |
| TableView.UpcomingComplete | app/page.tsx:244-247 | every listed job with a kept entry has its reminder |
| TableView.UpcomingOne | app/page.tsx:217-245 | one job gives exactly one reminder, with its kept entries, when it has any, and none otherwise |
| TableView.UpcomingAppend | app/page.tsx:216-249 | reminders keep the list order: those of two lists joined are those of the first list followed by those of the second |
| TableView.ReminderBoundaries | app/page.tsx:242 | a deadline one day past is still shown, one two days past is not; the window's last day is shown, the day after it is not |
| TableView.TrimEach | app/page.tsx:276 | every piece is trimmed in place |
| TableView.TrimEachAppend | app/page.tsx:276 | trimming works piece by piece |
| TableView.NonEmpty | app/page.tsx:277 | dropping empty pieces keeps each non-empty piece as often as the list holds it, and no empty one |
| TableView.NonEmptyAppend | app/page.tsx:277 | dropping empty pieces works piece by piece, so the kept pieces keep their order |
| TableView.ParseTags | app/page.tsx:274-277 | every parsed tag is non-empty, trimmed and free of commas |
| TableView.ParseTagsPiece | app/page.tsx:274-277 | text without a comma gives its trimmed text as the one tag, or no tag when it is blank |
| TableView.ParseTagsAppend | app/page.tsx:274-277 | the tags of text around a comma are the tags of the left side followed by those of the right side; with `ParseTagsPiece` this fixes the tags of every input |
| TableView.TagsRoundTrip | app/page.tsx:274-277 | tags written into the edit form as the tags joined by ", " (app/page.tsx:370) parse back to the same tags, in order and with duplicates, whenever they are non-empty, trimmed and comma-free |
| TableView.ParseReminder | app/page.tsx:279-280 | the reminder input gives a number exactly when it is not blank and its `Number` is neither NaN nor 0, and then that number; so the form never sends a 0 |
| TableView.TrimmedOrNull | app/page.tsx:315 | the trimmed text, or null when that is empty: null exactly for a blank input |
| TableView.DateOrNull | app/page.tsx:321-322 | an empty date input is sent as null, any other as it is |
| TableView.SubmitBody | app/page.tsx:270-324 | the form sends no request exactly when company or role is blank. Otherwise the body carries: the trimmed company and role; the trimmed URL and notes, null exactly when blank; the status and priority names; the date input as given; the parsed tags; each deadline input, null exactly when empty; and the parsed reminder, null exactly when there is none |
| TableView.SubmittedFormIsCreated | app/page.tsx:309-325 | a form a signed-in user sends with parseable dates is always created by the endpoint. The record holds the trimmed company, role, URL and notes (URL and notes null exactly when blank), the chosen status and priority, and the parsed tags and reminder. Its application date is the date input's time, or the request time when the input is empty or does not parse. Each deadline is null exactly when its input is empty, and otherwise the input's time |
| TableView.WithoutIdMembers | app/page.tsx:347 | removing by id keeps exactly the jobs with another id |
| TableView.WithoutId | app/page.tsx:347 | no job with the removed id is left, and the list never grows |
| TableView.WithoutAbsentId | app/page.tsx:347 | removing an id the list does not hold changes nothing |
| TableView.ReplaceById | app/page.tsx:305-306 | jobs with the answer's id become the answer, every other job stays in its place, and a list without that id is unchanged |
| TableView.WithoutIdAppend | app/page.tsx:347 | removing by id works piece by piece, so the kept jobs stay in their order |
| TableView.ReplaceKeepsIds | app/page.tsx:305-306 | replacing the job with the answer's id keeps the ids unique and every other job as it was |
| TableView.WithoutIdKeepsIds | app/page.tsx:347 | removing by id keeps the ids unique |
| TableView.JobList.ApplyUpdate | app/page.tsx:305-307 | after an edit, the job with the answer's id becomes the answer, all else unchanged; unique ids stay unique |
| TableView.JobList.ApplyStatusChange | app/page.tsx:383 | after a status change, the job with the requested id becomes the answer; the length and every other job are unchanged |
| TableView.JobList.AddCreated | app/page.tsx:329 | the created job goes first and the others follow in their order; ids stay unique when the new id is new |
| TableView.JobList.RemoveDeleted | app/page.tsx:347 | after a delete, no job with that id is left, the others keep their order, and unique ids stay unique |
| Board.EveryStatusHasColumn | app/board/BoardClient.tsx:65-72 | every status has its column |
| Board.GroupByStatus | app/board/BoardClient.tsx:65-75 | the pushing loop gives every status the jobs of that status, in board order |
| Board.SortColumns | app/board/BoardClient.tsx:76-82 | the loop over the six statuses sorts every column by application date |
| Board.BuildColumns | app/board/BoardClient.tsx:64-84 | each column holds exactly the jobs of its status, as often as the board does, earliest application first, and the column sizes add up to the number of jobs |
| Board.SetStatusEffect | app/board/BoardClient.tsx:100-104 | the optimistic update changes only the status of the cards with the dragged id; every other card and every other field is unchanged |
| Board.SetStatus | app/board/BoardClient.tsx:100-104 | the optimistic update keeps every card's id and place and gives the dragged card the destination status |
| Board.RevertRestores | app/board/BoardClient.tsx:118-122 | moving a card and moving it back restores the board when the card was in the source column |
| Board.DroppedCardInColumn | app/board/BoardClient.tsx:99-104 | after the move the dragged card shows in the destination column |
| Board.BoardState.HandleDragEnd | app/board/BoardClient.tsx:86-124 | a drop outside a column or in its own place changes nothing and sends nothing. Otherwise the destination status is sent; on success the card keeps it; on failure the source status is set again, which restores the board when the card was in the source column |
| Board.Classify | app/board/BoardClient.tsx:278-285 | the four bands, each as an if-and-only-if: at most 0 days overdue, 1 to 2 urgent, 3 to 7 soon, more than 7 calm; so they are disjoint and cover every integer |
| Board.ClassifyMonotone | app/board/BoardClient.tsx:278-285 | a nearer deadline never gets a calmer band |
| Board.BadgeFor | app/board/BoardClient.tsx:237-244 | a deadline has a badge exactly when it is usable; the badge carries its time, its days left and the band of those days |
| Board.DeadlineBadges | app/board/BoardClient.tsx:232-266 | a badge is in the row exactly when it is the badge of a usable deadline (`IsBadgeOf`): of that kind, at that time, with the days left until it and their band. The row is empty exactly when neither deadline is usable, and holds at most two badges, the assessment's before the interview's |
| Board.ReminderHasBadge | app/board/BoardClient.tsx:232-285 | with a reminder window of at most two days, every deadline the table reminds of (app/page.tsx:215-251) shows on the board with the same days left, in the overdue or urgent band |
| Stats.BuildWeeks | app/stats/StatsClient.tsx:45-52 | the loop builds exactly eight bars, oldest first; bar `k` has the week label of the day `7 - k` weeks before now and starts at 0 |
| Stats.WeeksOldestFirst | app/stats/StatsClient.tsx:47-49 | a later bar stands for a later day |
| Stats.FirstWithLabel | app/stats/StatsClient.tsx:57 | `find` gives the first bar with the label, or none when no bar has it |
| Stats.CountedLast | app/stats/StatsClient.tsx:54-59 | one more application adds one to the first bar of its week, or changes nothing when its week is not shown |
| Stats.Counted | app/stats/StatsClient.tsx:54-59 | counting keeps every bar's label and place, and no bar's count goes down |
| Stats.SumCounted | app/stats/StatsClient.tsx:54-59 | counting adds exactly one per application whose week is one of the bars |
| Stats.CountApplications | app/stats/StatsClient.tsx:54-59 | the counting loop gives each bar the applications that land on it first; the bars grow by at most the number of applications |
| Stats.ApplicationsPerWeek | app/stats/StatsClient.tsx:43-59 | eight bars, oldest first. Each bar counts the applications whose week label is its own, and the counts add up to at most the number of applications |
| Stats.RoundPercent | app/stats/StatsClient.tsx:66-67 | a rate is 0 for no applications, otherwise the whole percentage nearest to `100·part/total`, halves rounded up; it is at most 100 when the part is at most the total |
| Stats.RatesSumBound | app/stats/StatsClient.tsx:62-67 | the offer and rejection rates add up to at most 101 |
| Stats.RatesMayReach101 | app/stats/StatsClient.tsx:66-67 | 101 is reached: 3 offers and 5 rejections of 8 show as 38% and 63% |
| Stats.Summarize | app/stats/StatsClient.tsx:61-81 | the total, both rates (each at most 100, together at most 101), and per status the number of applications with it; the counts add up to the total |
| Stats.MapSet | app/stats/StatsClient.tsx:198 | `map.set` on a map that keeps insertion order: an existing day keeps its place and takes the new count, a new day goes at the end, and every other entry is unchanged |
| Stats.FoldDates | app/stats/StatsClient.tsx:192-199 | the map has one entry per distinct day, and its days are the days of the applications |
| Stats.FoldShape | app/stats/StatsClient.tsx:192-199 | when equal days lie together, the counts increase strictly and the last entry is the latest day with the number of applications |
| Stats.SortedDaysContiguous | app/stats/StatsClient.tsx:188-191 | sorting applications with ISO dates by time keeps each day's applications together |
| Stats.CumulativeShape | app/stats/StatsClient.tsx:187-205 | the series has one point per distinct day and is empty exactly for no applications. With ISO dates its counts increase strictly and the last one is the number of applications |
| Stats.BuildCumulativeData | app/stats/StatsClient.tsx:187-205 | the loop over a sorted copy builds the series, with all of the properties of `CumulativeShape` and of `CumulativeMeaning` |
| Stats.CumulativeMeaning | app/stats/StatsClient.tsx:187-205 | with ISO dates, the points' days increase with the index (`DaysInOrder`), and each point counts the applications made on its day or earlier (`CountsToDay`) |
| Stats.FoldMeaning | app/stats/StatsClient.tsx:192-199 | folding applications in time order gives points in day order, each counting the applications folded up to its day |
| Stats.CountPermutation | app/stats/StatsClient.tsx:188-191 | the number of applications made up to a day does not depend on their order, so sorting a copy first does not change it |
| JobsApi.OrNull | app/api/jobs/route.ts:76 | a text or null: null exactly for an absent, null or empty text, else the text |
| JobsApi.StatusOf | app/api/jobs/route.ts:38 | an absent status is "applied", a null one is refused, a given one is stored exactly when it names a status |
| JobsApi.PriorityOf | app/api/jobs/route.ts:39 | an absent priority is "medium", a null one is refused, a given one is stored exactly when it names a priority |
| JobsApi.AppliedTime | app/api/jobs/route.ts:67-70 | the application date is the given date when it is non-empty and parseable, otherwise now; never null |
| JobsApi.DeadlineOf | app/api/jobs/route.ts:82-83 | a deadline is null exactly when absent, null or empty; otherwise it is the parsed date |
| JobsApi.Record | app/api/jobs/route.ts:72-87 | the stored record: the new id, the caller as owner, the creation time; company and role as given; URL and notes null exactly when falsy, otherwise the given text; status and priority as named or defaulted; the application date as given when non-empty and parseable, otherwise now; tags as given or empty; the reminder as given or null; deadlines null exactly when absent, null or empty, otherwise the given date's time |
| JobsApi.Owned | app/api/jobs/route.ts:16-19 | the owner filter keeps only the caller's records and never grows the store |
| JobsApi.Create | app/api/jobs/route.ts:24-94 | no caller id gives 401; a body that is not JSON, or is `null`, gives 500; a falsy company or role gives 400. A record is created (201, owned by the caller) exactly when the caller has an id and the body passes both the handler's checks and the store's. The created record is `Record` of the body, and a body that passes the handler's checks but that the store refuses gives 500 |
| JobsApi.Post | app/api/jobs/route.ts:72-89 | the store grows by the created record on 201 and is unchanged on any other answer |
| JobsApi.OwnedOccurrences | app/api/jobs/route.ts:16-19 | the owner filter keeps each of the caller's records as often as it is stored and nothing else |
| JobsApi.List | app/api/jobs/route.ts:8-22 | no session gives a 500, a session without an id a 401. Otherwise the list is the caller's records, latest application first, as a permutation of the owner filter |
| JobsApi.ListedExactly | app/api/jobs/route.ts:16-21 | a signed-in caller sees exactly their own stored records, each as often as it is stored |
| JobsApi.CreatedIsListed | app/api/jobs/route.ts:72-89 | a created record shows up in its owner's list, which grows by exactly that record; every other user's list stays as it was |

## Left out

- The file download (Blob, object URL, link click), `alert`, `confirm`, `console` and the `fetch` calls. A server answer is an input of the operation that applies it: a board update is a boolean, and the page's updates take the returned record.
- Session resolution (`lib/auth.ts`, `getServerSession`) is not part of this model. The caller is a parameter.
- The store's own behaviour (Prisma) is not part of this model. It is a sequence: creating appends and listing filters. Its enum and date checks are `JobsApi.Accepted`, and its generated id and timestamps are parameters.
- The `PATCH` and `DELETE` handlers (`app/api/jobs/[id]/route.ts`) are not part of this model. The page's reaction to their answers is modelled (`TableView.JobList`).
- JSON values of the wrong type (a number where text is expected, and the like) are not modelled. A body that is not JSON, or is JSON `null`, is the 500 of `JobsApi.Create`. Any other JSON value that is not an object has no properties, so it is the body with every property `Missing` and gets the 400.
- Rendering, styling and navigation, the labels and colours of statuses and priorities, the edit form's `String(n)` of the reminder, and the badge's date text (`toISOString`).
- Asynchronous interleaving: the board's optimistic update and the server's answer are two sequential steps of one call.
- `Date.parse` and `new Date` are left out: a date is its text with its parsed time, or nothing for NaN. `createdAt` and `lastUpdated` are kept only as text, because only their first ten characters are used.
- Stats.BuildWeeks: the week label (`getWeekNumber` with the local-time year) is a parameter `weekOf`. The day `i` weeks back is `now - i·7·86400000` ms, so a local-time `setDate` across a daylight-saving change, which can shift that by an hour, is not modelled.
- Stats.RoundPercent: the rates use exact half-up rounding of `100·part/total`. The floating-point division before `Math.round` is not modelled.
- Domain.DaysUntil: exact integer ceiling. The floating-point division before `Math.ceil` is not modelled.
- Text.Trim: the white space removed is the ASCII white space, no-break space, byte-order mark and the line and paragraph separators; the other Unicode space separators are kept.
- Text.Lower: only ASCII letters are lower-cased.
- Sorting.SortBy: it is a stable insertion sort, but only sortedness and permutation are proved. Stability, and the order the store gives to records with equal dates, are not stated.
- Stats.CumulativeShape: strictly increasing counts and the last count are proved for ISO dates only (`IsoDates`), where equal ten-character prefixes mean the same UTC day. The page's dates are ISO strings.
- Stats.CumulativeMeaning: the day order and the counts up to each day are likewise proved for ISO dates only (`IsoDates`).
- `buildCumulativeData` sorts a copy. Sequences are values here, so the input cannot change and there is nothing to state.
