# Product Compass: a Dafny model of its roadmap logic

Product Compass is a small product-management web application. A Flask
backend (`app.py`) stores roadmaps, features and personas. The browser pages
show them:

- the roadmap board (`static/js/roadmap.js`), with month, quarter, sprint,
  release and Kanban views and a Gantt chart;
- the roadmap list (`static/js/roadmaps.js`);
- a breadcrumb bar (`static/js/breadcrumb.js`);
- comments with @-mentions (`static/js/collaboration.js`);
- the profile page (`static/js/profile.js`), the landing page
  (`static/js/landing.js`) and the sign-in page (`static/js/login.js`).

Two Python scripts point the mail settings in `.env` at a Mailgun domain:
`setup_productcompass_domain.py` and `setup_custom_domain.py`.

This project models the computations inside that code. The DOM, `fetch`, the
database and the terminal are replaced by explicit inputs and outputs:

- today's date is a (year, month, day) triple;
- the clock is a millisecond count;
- the viewport width is an integer;
- the location is a path string;
- a server response is a `Result` value;
- the database is a set of maps keyed by id;
- `.env` is a sequence of lines.

The code keeps its own form:

- State the source updates in place becomes a class with `modifies` clauses:
  - `RoadmapBoard.RoadmapManager` for the board;
  - `RoadmapsPage.RoadmapsPage` for the list page;
  - `Collaboration.CommentBox` for the comment input;
  - `Profile.ProfilePage` for the profile page;
  - `Landing.LandingPage` for the landing cards, an array changed in place;
  - `Login.LoginForm` for the sign-in form;
  - `Backend.Store` for the database tables.
- Loops in the source are methods with loop invariants, each proved equal to
  a specification function. Examples are the quarter and sprint labels,
  `buildTasksArray`, the breadcrumb builder, the per-roadmap listing, the demo
  seeding and both `.env` rewrites.
- Pure expressions are functions and lemmas.

Modules:

- `Wrappers`, `Text`, `Json` and `Dates` hold the vocabulary the others share:
  - Option and Result;
  - the JavaScript and Python string operations used, such as trim,
    lower-casing, split, `lastIndexOf`, `replace` and `parseInt`;
  - JSON values and Python's `dict.get`;
  - calendar dates, the JavaScript `Date` constructor's month and day
    overflow, and the one-day shift between local and UTC midnight.
- `RoadmapPeriods` holds column counts and the quarter, month and sprint
  arithmetic.
- `RoadmapFormat` holds `truncateText`, `parseDate` and `formatDateForInput`.
- `RoadmapDrops` holds the PUT bodies the drop handlers send and their round
  trips.
- `RoadmapBoard` holds bucketing, column placement, the list operations on
  `features`, `buildTasksArray` and the `RoadmapManager` class.
- `RoadmapsPage` holds search, filter, sort, statistics and relative dates.
- `Breadcrumb`, `Collaboration`, `Profile`, `Landing` and `Login` model their
  pages.
- `Backend` holds the handlers of `app.py` over an in-memory store.
- `EnvLines`, `ProductCompassSetup` and `CustomDomainSetup` hold the `.env`
  rewriting, domain normalisation and the domain status decision.

Where the model follows the code against the design:

- In `handleFilter`, a non-blank search box replaces the filtered list with
  the search over all roadmaps. The chosen filter then has no effect.
  `RoadmapsPage.RoadmapsPage.HandleFilter` keeps this.
- Where a finding below shows the code going wrong, the members that model
  the handlers and components keep the code as written, and the corrected
  definition sits beside them with its property proved:
  - `Backend.Store.UpdateFeature` parses the date from every request body;
  - `Collaboration.CommentBox.InsertMention` uses `lastIndexOf` even when no
    '@' precedes the cursor;
  - `CustomDomainSetup.SetupEnv` checks the input for emptiness before
    normalising it;
  - `Collaboration.CommentBox.PressEnter` and `ClickSubmit` post through
    `submitComment`, whose `finally` block enables submit on the emptied box.

## Model

| member | source | states |
|---|---|---|
| RoadmapPeriods.Clamp | static/js/roadmap.js:165-184 | The result lies in [lo, hi]. It is x when x is inside the range and the nearer bound otherwise. |
| RoadmapPeriods.OptimalColumnCount | static/js/roadmap.js:165-184 | The column count lies within the view's bounds. It equals the number of 220-pixel columns that fit beside the sidebar whenever that number is within the bounds. |
| RoadmapPeriods.ColumnCountRanges | static/js/roadmap.js:165-184 | For every width: month 3..5, quarter 2..4, sprint 3..6, any other view 3..5. |
| RoadmapPeriods.ColumnCountMonotone | static/js/roadmap.js:165-184 | A wider screen never gives fewer columns. |
| RoadmapPeriods.JsRem | static/js/roadmap.js:186-200 | JavaScript's `%` truncates: the remainder is below the divisor in magnitude and has the dividend's sign. |
| RoadmapPeriods.JsModulusIdiom | static/js/roadmap.js:186-200 | `((x % 4) + 4) % 4` with the truncating `%` equals the mathematical x mod 4, also for negative offsets. |
| RoadmapPeriods.QuarterAtIndex | static/js/roadmap.js:186-200 | For any integer offset, every column's quarter number is 1..4. Column k lies exactly k quarters after today's quarter. |
| RoadmapPeriods.QuarterAtNext | static/js/roadmap.js:186-200 | Consecutive columns advance by one quarter, and Q4 rolls over to Q1 of the next year. |
| RoadmapPeriods.QuarterLabelInjective | static/js/roadmap.js:186-200 | Distinct quarters get distinct "Qq YYYY" labels. |
| RoadmapPeriods.QuarterOfDate | static/js/roadmap.js:212-215 | The quarter of a date has the date's year and contains the date's month. |
| RoadmapPeriods.MonthAt | static/js/roadmap.js:149-163 | A month column's month is always 1..12. |
| RoadmapPeriods.MonthAtIndex | static/js/roadmap.js:149-163 | Month column k lies exactly k months after today's month, for negative k too. |
| RoadmapPeriods.MonthAtNext | static/js/roadmap.js:149-163 | Consecutive month columns advance by one month, and December rolls over to January of the next year. |
| RoadmapPeriods.CeilDiv | static/js/roadmap.js:217-223 | `Math.ceil(a / b)` is the unique r with (r-1)·b < a ≤ r·b. |
| RoadmapPeriods.CeilDivUnique | static/js/roadmap.js:217-223 | Any r with (r-1)·b < a ≤ r·b is the ceiling. |
| RoadmapPeriods.NestedCeil | static/js/roadmap.js:217-223 | Rounding weeks up and then halving up equals rounding up to whole fortnights. |
| RoadmapPeriods.SprintForDate | static/js/roadmap.js:217-223 | The sprint number is always 1..8. |
| RoadmapPeriods.SprintForDateWindow | static/js/roadmap.js:217-223 | Sprint k holds exactly the dates whose distance from now is in the k-th fortnight. Sprint 1 also takes everything earlier and sprint 8 everything later. |
| RoadmapFormat.TruncateText | static/js/roadmap.js:2661-2664 | Text within the limit is unchanged. Longer text keeps its first maxLength characters and gains "...". |
| RoadmapFormat.ParseDate | static/js/roadmap.js:2671-2675 | An empty string gives today. Any result is a real calendar date. |
| RoadmapFormat.ParseDateOfIso | static/js/roadmap.js:2671-2675 | A YYYY-MM-DD string of years 100..9999 is read back as the local date it names. |
| RoadmapFormat.ParseDateTwoDigitYear | static/js/roadmap.js:2671-2675 | Years 0..99 are read as 1900..1999, so "0050-01-01" is 1 January 1950. |
| RoadmapFormat.SplitIso | static/js/roadmap.js:2671-2675 | Splitting a written date at '-' gives its three zero-padded fields. |
| RoadmapFormat.ParseIntPad4 | static/js/roadmap.js:2671-2675 | `parseInt` reads a four-digit padded year back as its value. |
| RoadmapFormat.ParseIntPad2 | static/js/roadmap.js:2671-2675 | `parseInt` reads a two-digit padded month or day back as its value. |
| RoadmapFormat.FormatDateForInput | static/js/roadmap.js:2678-2687 | Empty gives empty. A YYYY-MM-DD string is kept as it is. Anything else is re-formatted from the host's parse, and is an error exactly when the host cannot parse it. |
| RoadmapFormat.FormatDateForInputIdempotent | static/js/roadmap.js:2678-2687 | The output is empty or YYYY-MM-DD, and formatting it again returns it unchanged. |
| RoadmapDrops.StatusDropBody | static/js/roadmap.js:660-681 | The Kanban drop sends a body with only the key "status", holding the column's status. |
| RoadmapDrops.ReleaseDropBody | static/js/roadmap.js:1440-1442 | The release drop sends only "release". It sends "" for the Unassigned column and the column name otherwise. |
| RoadmapDrops.ReleaseDropRoundTrip | static/js/roadmap.js:1425-1442 | The bucket key `release \|\| 'Unassigned'` of the sent release is the column it was dropped on. |
| RoadmapDrops.FirstQuarterMatch | static/js/roadmap.js:1173-1179 | Finds the first position where the heading matches `Q(\d) (\d{4})`, and no earlier one. |
| RoadmapDrops.QuarterDropBody | static/js/roadmap.js:1173-1179 | A body exists exactly when the heading names a quarter. It holds only "date". |
| RoadmapDrops.ParseQuarterLabelOfLabel | static/js/roadmap.js:1173-1179 | A heading written for quarter q of year Y parses back to (q, Y). |
| RoadmapDrops.MidMonthReadBack | static/js/roadmap.js:862-867 | The 15th of a month survives the UTC rendering and the read-back in every time zone. The local view and `parseDate` both see the same year and month. |
| RoadmapDrops.QuarterDropRoundTrip | static/js/roadmap.js:1173-1179 | Dropping on "Qq YYYY" stores a date that the quarter view, as written and corrected, puts back in "Qq YYYY", in any time zone. |
| RoadmapDrops.QuarterOfMidQuarterDate | static/js/roadmap.js:212-215 | The middle month's 15th belongs to quarter q in both quarter computations. |
| RoadmapDrops.MonthDropRoundTrip | static/js/roadmap.js:854-885 | The date sent by a month drop falls in the month column it was dropped on. |
| RoadmapDrops.SprintNumberOfLabel | static/js/roadmap.js:1307-1313 | The number read from "Sprint n" is n. |
| RoadmapDrops.SprintOfDay | static/js/roadmap.js:217-223 | The sprint of a stored day is 1..8. |
| RoadmapDrops.SprintDropDaysOfNumber | static/js/roadmap.js:1307-1313 | The day each drop handler computes for "Sprint k": the start of the k-th fortnight as written, and its middle once corrected. |
| RoadmapDrops.SprintDropAsWrittenLandsOneEarlier | static/js/roadmap.js:1307-1313 | As written, a drop on "Sprint k" for k ≥ 2 stores a day the sprint view shows in sprint k-1. |
| RoadmapDrops.SprintTwoDropShowsInSprintOne | static/js/roadmap.js:1307-1313 | A concrete case: a card dropped on "Sprint 2" reappears in "Sprint 1". |
| RoadmapDrops.SprintDropRoundTrip | static/js/roadmap.js:1307-1313 | With the corrected day, the middle of the fortnight, a drop on "Sprint k" for k in 1..8 reappears in sprint k. |
| RoadmapBoard.Count | static/js/roadmap.js:631-635 | A filter's size never exceeds the list. |
| RoadmapBoard.FindIndex | static/js/roadmap.js:422-424 | `findIndex`: the first feature with that id, or -1 when none has it. |
| RoadmapBoard.StatusColumnsPartition | static/js/roadmap.js:540-544 | The planned, in-progress and completed column counts plus the features with any other status add up to the number of features. |
| RoadmapBoard.Dedup | static/js/roadmap.js:130-134 | The result is distinct, has exactly the keys of the input, and is no longer than it. |
| RoadmapBoard.DedupFirstOccurrenceOrder | static/js/roadmap.js:130-134 | Keys come in order of their first occurrence. |
| RoadmapBoard.Releases | static/js/roadmap.js:130-134 | The release columns are distinct. Every feature's key `release \|\| 'Unassigned'` is a column, and every column is some feature's key. |
| RoadmapBoard.ReleaseColumnsPartition | static/js/roadmap.js:1425-1437 | Over distinct columns that cover every key, the column counts add up to the number of features. |
| RoadmapBoard.ReleaseBoardShowsAll | static/js/roadmap.js:1425-1437 | On the release board every feature is counted in exactly one column. |
| RoadmapBoard.QuarterViewShiftsWestOfUtc | static/js/roadmap.js:1156-1169 | West of UTC, a feature dated 2025-04-01 sits in the April month column but in the Q1 2025 quarter column. |
| RoadmapBoard.QuarterAgreesWithMonth | static/js/roadmap.js:795-831 | With the corrected quarter view, a feature in month column m is in the quarter containing m. |
| RoadmapBoard.FeatureInQuarterIsInOneMonth | static/js/roadmap.js:1165-1169 | With the corrected quarter view, a feature is in a quarter's column exactly when it is in one of that quarter's three month columns, and then in only one. |
| RoadmapBoard.QuarterCountIsMonthSum | static/js/roadmap.js:1165-1169 | With the corrected quarter view, a quarter column's count is the sum of its three month columns' counts. |
| RoadmapBoard.IndexOf | static/js/roadmap.js:352-355 | `indexOf`: the first position holding the key, or -1 when the key is absent. |
| RoadmapBoard.ReleaseColumnIndex | static/js/roadmap.js:352-355 | A feature goes to its release's column. An unknown release falls back to the last column. |
| RoadmapBoard.ReleaseTimelinePlacement | static/js/roadmap.js:352-355 | Every feature's release column on the timeline is the column of its own key. |
| RoadmapBoard.FindMonth | static/js/roadmap.js:357-360 | The first month column with the date's year and month, or -1 when there is none. |
| RoadmapBoard.MonthColumnIndex | static/js/roadmap.js:357-360 | A feature goes to the first column of its month when one is shown. Otherwise it goes to the first column when its date is before the first column's month, and to the last column when it is later or the date is invalid. |
| RoadmapBoard.RemoveInsertMultiset | static/js/roadmap.js:422-424 | Taking an element out and putting it back anywhere keeps the same multiset. |
| RoadmapBoard.ReorderPermutes | static/js/roadmap.js:411-427 | The reorder is a permutation of `features`. The moved feature ends at newIndex, clamped to the end, and the other features keep their relative order. |
| RoadmapBoard.RemoveId | static/js/roadmap.js:491-506 | The filter keeps exactly the features with another id. It drops as many as have that id. |
| RoadmapBoard.RemoveAbsentId | static/js/roadmap.js:491-506 | Deleting an id no feature has leaves the list unchanged. |
| RoadmapBoard.ApplyResponse | static/js/roadmap.js:248-267 | An onAdd response keeps the length and every id. An error response, or one whose id is not on the board, changes nothing. Otherwise the feature with the response's id takes the response's status, its date, or the whole response, as the handler copies. |
| RoadmapBoard.ApplyResponseFrame | static/js/roadmap.js:248-267 | Only the feature with the returned id changes. |
| RoadmapBoard.StatusDropMovesOneFeature | static/js/roadmap.js:660-681 | An accepted status drop moves exactly one feature from its old status column to the new one. |
| RoadmapBoard.DurationDays | static/js/roadmap.js:1890-1896 | The duration is 7, 14 or 21 days. It is 7 exactly for high, 21 exactly for low, and 14 otherwise. |
| RoadmapBoard.Progress | static/js/roadmap.js:1899-1905 | Progress is 100 exactly for completed, 50 exactly for in-progress, and 0 otherwise. |
| RoadmapBoard.TaskFor | static/js/roadmap.js:1908-1915 | A task starts at the feature's date, ends the duration later, has the status progress, and its name is at most 43 characters. |
| RoadmapBoard.TaskForFields | static/js/roadmap.js:1908-1915 | The task's name is the title cut at 40 characters. Its id is `task_` and the feature id, or the index when the id is 0. Its class is `task-` with the priority and status, defaulting to medium and planned. |
| RoadmapBoard.TasksLength | static/js/roadmap.js:1870-1927 | One task per schedulable feature, so never more tasks than features. |
| RoadmapBoard.TasksComeFromFeatures | static/js/roadmap.js:1870-1927 | Every task is the Gantt task of some schedulable feature. |
| RoadmapBoard.TaskPosition | static/js/roadmap.js:1870-1927 | Every schedulable feature has its task, and tasks keep the features' order. |
| RoadmapBoard.RoadmapManager.constructor | static/js/roadmap.js:3-15 | The manager starts in month view with no features, no selection and all offsets 0. |
| RoadmapBoard.RoadmapManager.LoadFeatures | static/js/roadmap.js:429-489 | `features` becomes the fetched list. |
| RoadmapBoard.RoadmapManager.SetView | static/js/roadmap.js:60-61 | The current view becomes the chosen one. |
| RoadmapBoard.RoadmapManager.NavigateTimeline | static/js/roadmap.js:1034-1050 | Only the offset of the named view moves, by direction times the column count. The other two stay as they were. |
| RoadmapBoard.RoadmapManager.ResetToCurrentPeriod | static/js/roadmap.js:123-128 | All three offsets become 0. |
| RoadmapBoard.RoadmapManager.ReleasesForView | static/js/roadmap.js:130-134 | Distinct release columns that cover every feature's key and only those keys. |
| RoadmapBoard.RoadmapManager.QuartersForView | static/js/roadmap.js:186-200 | One label per column. Label i names the quarter quarterOffset + i after today's quarter. |
| RoadmapBoard.RoadmapManager.SprintsForView | static/js/roadmap.js:202-210 | One label per column. Label i is "Sprint sprintOffset+i+1". |
| RoadmapBoard.RoadmapManager.MonthsForView | static/js/roadmap.js:149-163 | One column per count. Column i is the month monthOffset + i after today's month. |
| RoadmapBoard.RoadmapManager.OnEndReorder | static/js/roadmap.js:411-427 | The splice-based move leaves `features` as the reorder, a permutation. |
| RoadmapBoard.RoadmapManager.DeleteFeature | static/js/roadmap.js:491-506 | After an ok response the selected feature's id is filtered out. Otherwise nothing changes. |
| RoadmapBoard.RoadmapManager.SaveFeature | static/js/roadmap.js:274-326 | Editing replaces the feature with that id by the returned row, or changes nothing when the id is missing, and then ends editing. Creating appends the new row on success and changes nothing on error. |
| RoadmapBoard.RoadmapManager.ApplyDropResponse | static/js/roadmap.js:248-267 | `features` becomes the response applied to the old list. |
| RoadmapBoard.RoadmapManager.BuildTasksArray | static/js/roadmap.js:1870-1927 | The loop builds exactly the Gantt tasks of the schedulable features, never more than there are features. |
| RoadmapsPage.RoleOf | static/js/roadmaps.js:130-133 | Unknown exactly without a current user. Owner exactly when the owner id is the user's id. |
| RoadmapsPage.Annotate | static/js/roadmaps.js:89-95 | Keeps the served fields. Adds the role, a feature count defaulting to 0, lastUpdated falling back to created_at, and active. |
| RoadmapsPage.AnnotateAll | static/js/roadmaps.js:89-95 | One annotated card per served roadmap, in order. |
| RoadmapsPage.Filter | static/js/roadmaps.js:218-223 | Keeps exactly the cards that satisfy the predicate. |
| RoadmapsPage.FilterIsSubsequence | static/js/roadmaps.js:218-223 | The filtered cards keep their original order. |
| RoadmapsPage.FilterIdempotent | static/js/roadmaps.js:218-223 | Filtering twice is filtering once. |
| RoadmapsPage.Search | static/js/roadmaps.js:213-226 | A blank query gives every roadmap. Otherwise exactly the roadmaps whose lower-cased name or description contains the lower-cased trimmed query. |
| RoadmapsPage.SearchOrderAndIdempotence | static/js/roadmaps.js:213-226 | Search results keep the original order, and searching them again changes nothing. |
| RoadmapsPage.LexLessTransitive | static/js/roadmaps.js:255-272 | The name order used by the sort is transitive. |
| RoadmapsPage.LexLessIrreflexive | static/js/roadmaps.js:255-272 | No name sorts before itself. |
| RoadmapsPage.PrecedesTransitive | static/js/roadmaps.js:255-272 | Each sort key's order is transitive. |
| RoadmapsPage.InsertKeepsSorted | static/js/roadmaps.js:255-272 | Inserting at the computed position keeps the list sorted. |
| RoadmapsPage.InsertSorted | static/js/roadmaps.js:255-272 | The insertion keeps the list sorted and adds exactly that card. |
| RoadmapsPage.SortBy | static/js/roadmaps.js:255-272 | The result is sorted by the key and is a permutation of the input. |
| RoadmapsPage.UnsortedKeepsOrder | static/js/roadmaps.js:255-272 | An unknown sort key leaves the order unchanged. |
| RoadmapsPage.ApplyFilter | static/js/roadmaps.js:228-245 | 'owned' keeps exactly the Owner cards and 'member' exactly the Member cards. 'recent' gives min(10, n) cards, newest first. Any other value keeps all. |
| RoadmapsPage.RecentAreNewest | static/js/roadmaps.js:238-241 | 'recent' is the first ten of the newest-first order. No card left out is newer than one kept. |
| RoadmapsPage.Statistics | static/js/roadmaps.js:120-128 | The total is the number of roadmaps, and every other count is at most the total. |
| RoadmapsPage.CountsSplit | static/js/roadmaps.js:120-128 | When every role is known, the Member and Owner counts add up to the total. |
| RoadmapsPage.StatisticsWithUser | static/js/roadmaps.js:120-128 | With a current user, owned + team = total and every roadmap is active. |
| RoadmapsPage.StatisticsWithoutUser | static/js/roadmaps.js:120-133 | Without a current user, owned and team are both 0. |
| RoadmapsPage.FormatRelativeDateBuckets | static/js/roadmaps.js:458-469 | With d the rounded-up day difference: d = 1 gives "Yesterday", d < 7 "d days ago", d < 30 "⌈d/7⌉ weeks ago", d < 365 "⌈d/30⌉ months ago", and otherwise the locale date. |
| RoadmapsPage.FormIsValid | static/js/roadmaps.js:433-438 | The form is valid exactly when the trimmed name is non-empty. |
| RoadmapsPage.SaveRoadmapBody | static/js/roadmaps.js:160-211 | No request is made for a blank name. Otherwise the body carries the trimmed name. |
| RoadmapsPage.SavedNameAccepted | static/js/roadmaps.js:160-211 | Every body the page sends passes add_roadmap's name check (app.py:65-67). |
| RoadmapsPage.Toggled | static/js/roadmaps.js:274-290 | Toggling always changes the view. |
| RoadmapsPage.ToggleTwice | static/js/roadmaps.js:274-290 | Two toggles restore the original view. |
| RoadmapsPage.RoadmapsPage.constructor | static/js/roadmaps.js:39-42 | The page starts with no roadmaps, grid view and no user. |
| RoadmapsPage.RoadmapsPage.LoadRoadmaps | static/js/roadmaps.js:73-104 | allRoadmaps becomes the annotated served list, and the filtered list is a copy of it. |
| RoadmapsPage.RoadmapsPage.HandleSearch | static/js/roadmaps.js:213-226 | The filtered list becomes the search over all roadmaps. |
| RoadmapsPage.RoadmapsPage.HandleFilter | static/js/roadmaps.js:228-253 | The filter is applied when the search box is blank. Otherwise the search result replaces it. |
| RoadmapsPage.RoadmapsPage.HandleSort | static/js/roadmaps.js:255-272 | The filtered list is sorted by the key and stays a permutation of itself. |
| RoadmapsPage.RoadmapsPage.ToggleView | static/js/roadmaps.js:274-290 | The view flips between grid and list. Nothing else changes. |
| Breadcrumb.NonEmptyParts | static/js/breadcrumb.js:76 | Keeps exactly the non-empty path parts. |
| Breadcrumb.Segments | static/js/breadcrumb.js:76 | Each path segment is non-empty and contains no '/'. |
| Breadcrumb.SegmentsOfPath | static/js/breadcrumb.js:76 | Splitting the path built from some segments gives those segments back. |
| Breadcrumb.PathOfSnoc | static/js/breadcrumb.js:163-165 | The accumulated URL grows by '/' plus the next segment. |
| Breadcrumb.SegmentTitle | static/js/breadcrumb.js:177-180 | The title is the first character upper-cased, followed by the rest with '-' and '_' turned into spaces. |
| Breadcrumb.SegmentItem | static/js/breadcrumb.js:166-185 | A mapped URL takes its mapping's title and icon. Otherwise the title is derived from the segment, and the icon is the file icon for the last segment and the folder icon for others. |
| Breadcrumb.UnknownItems | static/js/breadcrumb.js:162-186 | One item per segment. |
| Breadcrumb.GenerateBreadcrumb | static/js/breadcrumb.js:74-190 | The builder returns exactly the trail of the path. |
| Breadcrumb.SpecialRouteItems | static/js/breadcrumb.js:108-149 | Home, then the parent item when there is one, then the active current item. |
| Breadcrumb.UnknownRouteItems | static/js/breadcrumb.js:151-186 | The forEach loop builds one item per segment, with cumulative URLs. |
| Breadcrumb.TrailShape | static/js/breadcrumb.js:74-190 | The trail is empty only for a path with no segments. A non-empty trail starts with Home at '/' and has exactly one active item, the last. |
| Breadcrumb.RootTrail | static/js/breadcrumb.js:80-87 | '/' gives exactly one item, Home, active. |
| Breadcrumb.MappedTrail | static/js/breadcrumb.js:89-106 | A mapped path gives exactly Home, inactive, followed by its mapping, active, at that URL. |
| Breadcrumb.SpecialTrail | static/js/breadcrumb.js:108-149 | A roadmap or join route has three items, with My Roadmaps in the middle. A share or embed route has two. The last item is at the path with the route's icon, and a roadmap's title is the roadmap name, or "Roadmap" without one. |
| Breadcrumb.UnknownTrail | static/js/breadcrumb.js:151-186 | Home, then one item per segment. The k-th URL is '/' plus the first k segments, so each URL extends the one before. |
| Breadcrumb.UnknownItemUrls | static/js/breadcrumb.js:162-165 | The item URLs are the cumulative prefixes of the path. |
| Breadcrumb.UnknownItemsActive | static/js/breadcrumb.js:151-186 | After Home, only the item of the last segment is active. |
| Breadcrumb.DynamicRouteItems | static/js/breadcrumb.js:107-187 | A path with segments under no mapping gives the special route's items when its first segment is a special route, and otherwise Home followed by one item per segment. |
| Breadcrumb.SplitOfRootedPath | static/js/breadcrumb.js:76 | Splitting '/' plus the segments joined by '/' gives an empty first part and then exactly the segments. |
| Breadcrumb.UnknownTrailEndsAtPath | static/js/breadcrumb.js:151-186 | The last item of an unknown route is the whole path, and it is active. |
| Collaboration.TrailingWordRun | static/js/collaboration.js:354 | The longest run of word characters at the end of the text. |
| Collaboration.MentionMatch | static/js/collaboration.js:354 | A match is '@' followed by a word-character query that ends the text. |
| Collaboration.MentionRequestIff | static/js/collaboration.js:350-366 | Suggestions are requested exactly when the text before the cursor ends in '@' followed by at least one word character. |
| Collaboration.MentionInsertedAsWritten | static/js/collaboration.js:434-447 | The new value is the text before the last '@' before the cursor, which is empty when there is no '@', then '@' + username + ' ', then the text after the cursor. |
| Collaboration.InsertMentionWithoutAtLosesText | static/js/collaboration.js:440-447 | Without an '@' before the cursor, "hi " becomes "@al ". The typed text is lost and the cursor does not land after the space. |
| Collaboration.MentionStart | static/js/collaboration.js:440 | The last '@' before the cursor, or the cursor itself when there is none. |
| Collaboration.MentionInserted | static/js/collaboration.js:434-447 | Corrected: the text before the mention start and after the cursor is kept, and the cursor lands just after the inserted space. |
| Collaboration.InsertMentionKeepsContext | static/js/collaboration.js:434-447 | The prefix before the '@' and the suffix after the cursor are unchanged. The cursor sits right after '@' + username + ' '. |
| Collaboration.InsertMentionAgreesWithAt | static/js/collaboration.js:434-447 | When an '@' precedes the cursor, the corrected insertion equals the code as written. |
| Collaboration.LeadingWordRun | static/js/collaboration.js:332 | The longest run of word characters at the start of the text. |
| Collaboration.WrapMentionsWithoutAt | static/js/collaboration.js:332 | Text without '@' has no mention to wrap. |
| Collaboration.WrapSingleMention | static/js/collaboration.js:332 | '@word' is wrapped in exactly one mention span. |
| Collaboration.WrapMentionThenRest | static/js/collaboration.js:332 | An '@' followed by a whole word becomes one mention span, and the text after the word is wrapped on its own. |
| Collaboration.BreakLines | static/js/collaboration.js:334 | Every newline becomes '<br>': no newline remains, text without one is unchanged, and the length grows by 3 per newline. |
| Collaboration.LinkUrls | static/js/collaboration.js:333 | Scanning left to right, each http or https url, up to the next blank, becomes a link to itself. |
| Collaboration.LinkUrlsWithoutUrl | static/js/collaboration.js:333 | Text in which no url starts is unchanged by the link step. |
| Collaboration.LinkUrlThenRest | static/js/collaboration.js:333 | A url followed by a blank or by nothing becomes one whole link, and the text after it is linked on its own. |
| Collaboration.FormatCommentContent | static/js/collaboration.js:330-335 | Mentions are wrapped, then urls linked, then line breaks rendered. The result contains no newline. |
| Collaboration.PlainCommentUnchanged | static/js/collaboration.js:330-335 | A comment with no '@', no newline and no url is shown as written. |
| Collaboration.UrlCommentLinked | static/js/collaboration.js:330-335 | A comment that is one url, with no '@', is shown as a link to that url, before line breaks are rendered. |
| Collaboration.FormatTimeUnits | static/js/collaboration.js:337-348 | Below a minute gives "just now". Then floor minutes, hours or days with "m ago", "h ago" or "d ago". A week or more gives the locale date. |
| Collaboration.BadgeOf | static/js/collaboration.js:75-78 | The badge shows the unread count and is visible exactly when the count is positive. |
| Collaboration.RoadmapIdMatch | static/js/collaboration.js:463 | The first '/roadmap/' followed by a digit, and no earlier one. |
| Collaboration.CurrentRoadmapId | static/js/collaboration.js:461-470 | When the path has '/roadmap/' followed by a digit, the result is the whole run of digits right after the first such '/roadmap/'. Otherwise it is the data attribute, or null. |
| Collaboration.CurrentRoadmapIdOfPage | static/js/collaboration.js:461-470 | On '/roadmap/<id>' the id is read back exactly. |
| Collaboration.CommentBox.constructor | static/js/collaboration.js:122-158 | The component starts empty, with submit disabled and the panel hidden. |
| Collaboration.CommentBox.TogglePanel | static/js/collaboration.js:160-170 | The panel flips, and comments are loaded exactly when it opens. |
| Collaboration.CommentBox.Input | static/js/collaboration.js:172-175 | Submit is disabled exactly when the trimmed text is empty. Suggestions follow the text before the cursor. |
| Collaboration.CommentBox.ShowSuggestions | static/js/collaboration.js:368-389 | An empty user list hides the suggestions. |
| Collaboration.CommentBox.InsertMention | static/js/collaboration.js:434-453 | Value and cursor become the insertion as written, including the lost text when no '@' precedes the cursor. Suggestions are hidden and submit is enabled. |
| Collaboration.CommentBox.SubmitComment | static/js/collaboration.js:276-308 | The trimmed text is sent. A successful post empties the box and puts the caret at 0, a failed one keeps the text, and either way submit ends enabled. |
| Collaboration.CommentBox.SubmitCommentCorrected | static/js/collaboration.js:276-308 | The trimmed text is sent, and afterwards submit is disabled exactly when the box is blank. |
| Collaboration.CommentBox.PressEnter | static/js/collaboration.js:183-190 | Enter without Shift posts exactly when submit is enabled. It sends the trimmed text and leaves the box as submitComment does; otherwise nothing changes. |
| Collaboration.CommentBox.ClickSubmit | static/js/collaboration.js:177-181 | The click posts exactly when the trimmed text is non-empty. It sends the trimmed text and leaves the box as submitComment does; otherwise nothing changes. |
| Collaboration.EnterAfterPostSendsBlank | static/js/collaboration.js:183-307 | After a successful post, the box is empty and submit is enabled, so Enter posts "". |
| Collaboration.PostKeepsSubmitRule | static/js/collaboration.js:289-307 | After the corrected post, submit is disabled exactly when the box is blank, so no blank text can be posted. |
| Collaboration.InsertedMentionNotBlank | static/js/collaboration.js:452 | After an insertion, as written or corrected, the text is never blank and the cursor lies inside it, so enabling submit agrees with the input rule. |
| Profile.DisplayName | static/js/profile.js:42-44 | full_name, else username, else 'User'. Never empty. |
| Profile.AvatarOf | static/js/profile.js:46-48 | The default image when avatar_url is missing or whitespace-only. Otherwise avatar_url. |
| Profile.DeleteEnabled | static/js/profile.js:272-276 | Enabled exactly when the trimmed text is "DELETE" and the box is ticked. |
| Profile.DeleteGateIgnoresBlanks | static/js/profile.js:272-276 | Surrounding blanks are ignored, but the comparison is case-sensitive. |
| Profile.ProfilePage.constructor | static/js/profile.js:2-3 | The page starts outside edit mode, with no activities and the delete button disabled. |
| Profile.ProfilePage.PopulateProfileData | static/js/profile.js:40-89 | The display name, avatar and form fields follow the user. The user's values become the saved originals. |
| Profile.ProfilePage.ShowRecentActivities | static/js/profile.js:188-210 | Shows the first min(3, n) activities and clears the show-all flag. "View All (n)" is visible exactly when n > 3. |
| Profile.ProfilePage.ShowAllActivities | static/js/profile.js:222-237 | Shows every activity and sets the flag. The button reads "Show Less". |
| Profile.ProfilePage.LoadRecentActivity | static/js/profile.js:150-186 | Stores the served activities. A non-empty list shows its first three. |
| Profile.ProfilePage.ToggleAllActivities | static/js/profile.js:213-220 | Flips the flag and shows all activities or the first three. |
| Profile.ProfilePage.ToggleEditMode | static/js/profile.js:290-324 | Flips edit mode. Leaving it restores full name and username to the saved originals. |
| Profile.ProfilePage.EditFields | static/js/profile.js:290-324 | Typing changes the fields only in edit mode. |
| Profile.ProfilePage.SaveProfile | static/js/profile.js:332-374 | No request for a blank trimmed full name or username. After success the trimmed values become the originals and the display name, and edit mode ends. On failure nothing changes. |
| Profile.ProfilePage.CheckDeleteConfirmation | static/js/profile.js:272-279 | The delete button is disabled exactly when the gate is closed. |
| Profile.ProfilePage.HideDeleteModal | static/js/profile.js:282-286 | Hiding the modal disables the delete button. |
| Landing.LeadingSpaceRun | static/js/landing.js:126 | The length of the leading whitespace run. |
| Landing.HyphenateBlanks | static/js/landing.js:126 | The result contains no whitespace. |
| Landing.Slug | static/js/landing.js:126 | A slug has no whitespace and no upper-case letter. |
| Landing.HyphenateLowerKeepsLower | static/js/landing.js:126 | Hyphenating introduces no upper-case letter. |
| Landing.HyphenateWithoutBlanks | static/js/landing.js:126 | Text without whitespace is unchanged. |
| Landing.SlugIdempotent | static/js/landing.js:126 | The slug of a slug is the slug. |
| Landing.SlugOfTwoWords | static/js/landing.js:126 | Two lower-case words separated by any whitespace run give "a-b". |
| Landing.HyphenatePrefix | static/js/landing.js:126 | A prefix without whitespace passes through unchanged. |
| Landing.BlankRunOf | static/js/landing.js:126 | A whole whitespace run becomes a single '-'. |
| Landing.Collapsed | static/js/landing.js:540-548 | A collapsed card is not expanded and keeps its slug and parts. |
| Landing.Expanded | static/js/landing.js:552-563 | An expanded card is expanded and keeps its slug and parts. |
| Landing.CollapseCollapsed | static/js/landing.js:535-549 | Collapsing a collapsed card changes nothing. |
| Landing.FindCard | static/js/landing.js:514-520 | The first card with that slug, or none. |
| Landing.Toggled | static/js/landing.js:535-563 | Every other card is collapsed and the chosen one flips. At most one card is expanded, and each button reads "Show Less" exactly when its card is expanded. |
| Landing.LandingPage.constructor | static/js/landing.js:116-130 | Every card starts collapsed, reading "Learn More", with the slug of its title. |
| Landing.LandingPage.ToggleCard | static/js/landing.js:497-563 | Without the card or one of its parts nothing changes. Otherwise the cards become the toggled cards, and at most one is expanded. |
| Landing.LandingPage.ClickOutside | static/js/landing.js:583-602 | A click outside every card and button collapses all cards. Any other click changes nothing. |
| Landing.ToggleTwice | static/js/landing.js:535-563 | Toggling the same card twice, with no other card expanded, restores the cards. |
| Login.ModeLabel | static/js/login.js:28-36 | The label reads 'Sign Up' exactly in sign-up mode. |
| Login.RegisterRequest | static/js/login.js:54-62 | username and full_name are the email's part before its first '@'. The body carries the email and password. |
| Login.RegisterUsesLocalPart | static/js/login.js:54-62 | For local@domain the username is local. |
| Login.ErrorText | static/js/login.js:65-67 | The server's error text when there is one, else the fallback. |
| Login.Submission | static/js/login.js:38-113 | Nothing is sent exactly when the trimmed email or the password is empty. Sign-up registers first and every login uses the email. The page moves on exactly when the answers are ok, and otherwise an error is shown. |
| Login.LoginForm.constructor | static/js/login.js:12 | The form starts in login mode, enabled, with no error. |
| Login.LoginForm.ToggleMode | static/js/login.js:28-36 | Flips the mode, relabels the form to match and clears the error. |
| Login.LoginForm.ShowLoading | static/js/login.js:23-26 | The button is disabled while loading and shows "Loading...". Otherwise it shows the mode's label. |
| Login.LoginForm.Submit | static/js/login.js:38-113 | Requests, error and redirect are those of the submission with the trimmed email. The button is restored afterwards. |
| Login.LoginForm.SubmitFields | static/js/login.js:40-113 | After trimming: blank fields leave the missing-fields error and send nothing; otherwise the requests and outcome are those of the submission, and the button is restored. |
| Login.LoginForm.Send | static/js/login.js:49-104 | The requests and outcome of a submission that passed the field check. |
| Login.ToggleTwice | static/js/login.js:28-36 | Two toggles restore the mode and every label. |
| Login.BlankEmailRefused | static/js/login.js:41-47 | A whitespace-only email is refused like an empty one. |
| Backend.FromIsoFormat | app.py:101 | Gives a date exactly for a string `fromisoformat` accepts. Anything else, a missing value included, raises. |
| Backend.FeatureJson | app.py:106-114 | The reply has exactly the seven feature keys, with the date in isoformat. |
| Backend.NewFeature | app.py:91-116 | 400 exactly when the date is missing or unparsable, or the title is null. Otherwise a row under the new id, for the roadmap, with the parsed date. |
| Backend.NewFeatureOfJson | app.py:91-116 | Posting back a served feature recreates the same row. |
| Backend.MergeFeatureAsWritten | app.py:163-187 | As written: a body without "date" is answered with 400. |
| Backend.MergeFeature | app.py:170-175 | Corrected: the merged row keeps its id and roadmap. An error is 400. |
| Backend.MergeFeatureFields | app.py:170-174 | A field absent from the body keeps its old value, and a field present takes the sent one. The date changes only when sent. |
| Backend.MergeFeatureErrors | app.py:175-187 | The merge fails exactly for a null title or a sent date that does not parse. |
| Backend.MergeAgreesWhenDateSent | app.py:170-175 | With a parsable date in the body, the corrected merge equals the handler as written. |
| Backend.MergeFeatureOfJson | app.py:163-187 | Putting back a served feature changes nothing. |
| Backend.StatusAndReleaseDropsRejected | app.py:175 | The board's status and release drop bodies are refused with 400 by the handler as written. |
| Backend.StatusAndReleaseDropsMerged | app.py:170-174 | With the corrected merge, a status or release drop changes only that field. |
| Backend.MergePersona | app.py:257-264 | Absent keys keep the old values. A null name fails with 400. The id is kept. |
| Backend.MergePersonaIdempotent | app.py:257-264 | An empty body changes nothing, and merging the same body twice is merging it once. |
| Backend.InsertPosition | app.py:76 | The insertion point is after every row not later than the new row and before every row later than it. |
| Backend.InsertByDate | app.py:76 | Insertion keeps date order and adds exactly that row. |
| Backend.InsertByDateDistinct | app.py:76 | Rows with distinct ids stay distinct. |
| Backend.DemoRow | app.py:341-373 | A seeded row has the sample's title, the demo roadmap and a date no earlier than today. |
| Backend.DemoOffsetsNondecreasing | app.py:341-370 | The sample day offsets never decrease. |
| Backend.DemoSamplesInDateOrder | app.py:341-373 | The seeded features are in date order, in the order they are listed. |
| Backend.Store.constructor | app.py:51-53 | The store starts with empty tables. |
| Backend.Store.AddRoadmap | app.py:62-71 | A missing or falsy name gives 400 and stores nothing. Otherwise one new roadmap under a fresh id, with 201. |
| Backend.Store.FeaturesByRoadmap | app.py:74-88 | Exactly the roadmap's features, each once, in non-decreasing date order. |
| Backend.Store.AddFeatureToRoadmap | app.py:91-116 | The built row is stored under a fresh id with 201. On error, 400 and nothing changes. |
| Backend.Store.UpdateFeature | app.py:163-187 | An unknown id gives 404. Otherwise the row merged as the handler writes it is committed with 200, or 400 with nothing changed. A body without a date always gets 400. |
| Backend.Store.DeleteFeature | app.py:190-200 | An unknown id gives 404. Otherwise exactly that feature is removed, with 204. |
| Backend.Store.UpdatePersona | app.py:250-276 | An unknown id gives 404. Otherwise the merged persona is committed with 200, or 400. |
| Backend.Store.SeedDemoFeatures | app.py:341-375 | Stores one row per sample under consecutive new ids, in order. Other rows are untouched. |
| Backend.Store.CreateDemo | app.py:337-375 | With no demo roadmap yet: the roadmap is added under a new id and the 11 samples are stored under the next feature ids; other rows are untouched. |
| Backend.Store.Demo | app.py:333-378 | Creates 'Product Compass Demo' and its 11 features only when no roadmap has that name, so a second call adds nothing. Either way it redirects to that roadmap's page. |
| Dates.ParseFormatIso | app.py:84 | Parsing what isoformat wrote gives the date back. |
| Dates.FormatParseIso | app.py:101 | A date string that parses is the canonical isoformat of its date. |
| Dates.JsLocalDateInRange | static/js/roadmap.js:2671-2675 | `new Date(y, m-1, d)` with an in-range month and day is exactly that date. |
| Dates.NextPrevInverse | static/js/roadmap.js:862-867 | The next and previous day undo each other. |
| Dates.AddDaysMonotone | app.py:341-370 | Adding more days gives a later date. |
| EnvLines.DomainLine | setup_productcompass_domain.py:283-285 | The written domain line starts with MAILGUN_DOMAIN=. |
| EnvLines.FromLine | setup_productcompass_domain.py:286-288 | The written sender line starts with MAIL_FROM_ADDRESS= and not with MAILGUN_DOMAIN=. |
| EnvLines.KeysExclusive | setup_productcompass_domain.py:283-288 | No line starts with both keys. |
| EnvLines.RewriteLine | setup_productcompass_domain.py:283-290 | A domain line becomes the new domain line and a sender line the new sender line. Any other line is kept unchanged. |
| EnvLines.RewriteLineKeepsKeys | setup_productcompass_domain.py:283-290 | A rewritten line starts with a key exactly when the original did. |
| EnvLines.RewriteLineIdempotent | setup_productcompass_domain.py:283-290 | Rewriting a line twice is rewriting it once. |
| EnvLines.Replaced | setup_custom_domain.py:236-243 | Same number of lines. Each line is rewritten in place, in order. |
| EnvLines.HasKeySnoc | setup_productcompass_domain.py:282-290 | Appending a line adds a key exactly when that line starts with it. |
| EnvLines.ReplacedIdempotent | setup_custom_domain.py:236-243 | Rewriting is idempotent and keeps which keys are present. |
| ProductCompassSetup.Updated | setup_productcompass_domain.py:278-296 | The rewritten lines come first. Then one line is appended per missing key: the domain line if the domain key was missing, then the sender line if the sender key was missing. The output has both keys. |
| ProductCompassSetup.UpdatedIdempotent | setup_productcompass_domain.py:278-296 | On a list of lines, updating twice gives the same lines as once. |
| ProductCompassSetup.UpdateEnvFile | setup_productcompass_domain.py:278-296 | The loop with its two flags computes exactly the updated lines for productcompass.com (line 15). |
| CustomDomainSetup.UpdateEnvFile | setup_custom_domain.py:225-251 | The loop rewrites the key lines and keeps the rest. It has the same length, appends nothing, and keeps which keys exist. |
| CustomDomainSetup.ReplaceAllLeading | setup_custom_domain.py:271-272 | `replace` removes an occurrence at the start. |
| CustomDomainSetup.ReplaceAllPassesOver | setup_custom_domain.py:271-272 | `replace` passes over text where the pattern does not start. |
| CustomDomainSetup.ReplaceAllSkips | setup_custom_domain.py:271-272 | Text without the pattern's first character is kept. |
| CustomDomainSetup.HttpPassedOver | setup_custom_domain.py:271 | Removing 'https://' leaves a leading 'http://' alone. |
| CustomDomainSetup.NormaliseClean | setup_custom_domain.py:271-272 | A bare domain is unchanged. |
| CustomDomainSetup.NormaliseStripsPrefix | setup_custom_domain.py:271-272 | 'https://www.' and 'http://www.' prefixes are removed. |
| CustomDomainSetup.NormaliseStripsInner | setup_custom_domain.py:272 | 'www.' is removed anywhere in the string, not only as a prefix. |
| CustomDomainSetup.NormaliseShrinks | setup_custom_domain.py:271-272 | Normalising never lengthens the domain. |
| CustomDomainSetup.DomainToSetUpAsWritten | setup_custom_domain.py:264-272 | As written: the script stops exactly when the stripped input is empty, and checks nothing after normalising. |
| CustomDomainSetup.SchemeOnlyReachesMailgun | setup_custom_domain.py:264-281 | The input 'https://' passes the check and reaches Mailgun as the empty domain. |
| CustomDomainSetup.DomainToSetUp | setup_custom_domain.py:264-272 | Corrected: stops exactly when the normalised domain is empty. Any domain it proceeds with is non-empty and normalised. |
| CustomDomainSetup.DomainToSetUpAgrees | setup_custom_domain.py:264-272 | When the normalised domain is non-empty, both versions agree. |
| CustomDomainSetup.StatusReportOf | setup_custom_domain.py:197-219 | An HTTP error carrying the status code exactly for a status other than 200. Active exactly for 200 with state 'active', unverified exactly for 200 with state 'unverified'. Any other state is reported as given, or as 'unknown' when absent. |
| CustomDomainSetup.CheckDomainStatus | setup_custom_domain.py:180-223 | Success exactly for status 200 with state 'active'. A missing state counts as 'unknown'. |
| CustomDomainSetup.SetupEnv | setup_custom_domain.py:257-322 | `.env` changes only when the input passes main's check as written, the domain is added and active. The lines are then rewritten for the normalised domain. The line count never changes. |
| CustomDomainSetup.SchemeOnlyEmptiesDomain | setup_custom_domain.py:264-272 | As written, the input "https://" with Mailgun answering added and active rewrites every domain line to an empty domain. |
| CustomDomainSetup.SetupEnvChecked | setup_custom_domain.py:257-322 | With the check made on the normalised domain, `.env` is only ever rewritten for a non-empty domain. |

## Left out

- DOM rendering, CSS, Bootstrap modals and toasts, Sortable.js and Frappe Gantt wiring are left out: they are presentation and third-party widgets. The model keeps the state those handlers change.
- `fetch`, Flask routing and templates, SQLAlchemy sessions, Mailgun requests, `nslookup`, `input()`, `time.sleep` and reading or writing `.env` are left out as I/O. Responses, answers and files are parameters or return values.
- Firebase sign-in (app.py:291-330, 400-424; static/js/login.js:116-155) is left out because it is a foreign service.
- `Date.now()`, `new Date()` and the browser's time zone are parameters. The zone is only west of, at, or east of UTC, because the offsets used are less than a day.
- Locale output (`toLocaleDateString`, month names) is left out: it is locale-bound and enters only as a given string.
- animateNumber (static/js/profile.js, static/js/roadmaps.js) is left out: it is floating-point easing on animation frames.
- Debounce, notification polling and other timers are left out as event-loop timing.
- `localeCompare` in the name sort is modelled as code-unit order, because collation is locale-bound.
- Strings are sequences of Unicode characters. JavaScript's `length`, `substring`, `lastIndexOf` and `selectionStart` count UTF-16 code units. So in RoadmapFormat.TruncateText, the breadcrumb titles and the comment box's caret positions (Collaboration.CommentBox.Input, Collaboration.CommentBox.InsertMention), lengths and indices are characters. With characters outside the Basic Multilingual Plane the source counts two units per character, and it can cut between the two halves of a surrogate pair.
- Collaboration.CommentBox.SubmitComment: the post is one step. The "Posting..." label while the request is in flight, a second submission during it, the reload of the comment list and the toasts are left out as event-loop timing and presentation.
- Lower-casing and upper-casing cover ASCII letters only. `\s` covers the ASCII whitespace characters and no other Unicode spaces.
- The breadcrumb lookups `breadcrumbMappings[url]` and `specialRoutes[segment]` are plain maps. Keys inherited from `Object.prototype`, such as a segment named `constructor`, are not modelled.
- RoadmapBoard.RoadmapManager.SaveFeature: it requires a successful response while editing. As written, the edit path never checks `response.ok`, so an error body would be stored in place of the feature. The model does not represent a non-feature row.
- Landing: with duplicate card titles, `querySelector` and `getElementById` can pick different elements. The model uses the first card with the slug throughout.
- SQLite details are left out: id reuse after deletion and foreign-key enforcement. New ids are always above every id in use, and a feature's roadmap id is not checked against the roadmap table.
- Backend.FromIsoFormat: only the YYYY-MM-DD form of `fromisoformat` is accepted. Python 3.11 also accepts other ISO forms, such as basic format and week dates.
- The persona, roadmap-list and feature-list GET handlers, add_feature, add_persona and delete_persona are left out. They repeat the patterns modelled in add_feature_to_roadmap, get_features_by_roadmap and delete_feature.
- RoadmapBoard.DurationDays: a priority that names a property every object inherits, such as `constructor` or `toString`, is treated like any other unknown priority. In the source, `durations[priority]` then gives a function, the end date is an Invalid Date, formatting it throws and the catch skips the feature. The model keeps the feature with 14 days.
- ProductCompassSetup.UpdatedIdempotent: idempotence holds on the list of lines. The file itself is written with `writelines` and read back with `readlines`. When its last line has no line break and a key is missing, the appended key is glued onto that last line, so a second run appends it again. The model does not represent the file text.
- The month and sprint view counts outside the drop round trips are left out. The month view's placement is modelled by InMonthColumn and MonthColumnIndex.
- test_deliverability.py, test_mailgun.py, static/js/personas.js and static/js/auth.js are not part of this model.

## Findings

| source | as written | input that shows it | evidently intended | confidence | as-written member | corrected member |
|---|---|---|---|---|---|---|
| static/js/roadmap.js:1307-1313 with 217-223 | The sprint drop stores the first day of the k-th fortnight. getSprintForDate rounds that instant up into sprint k-1 | A card dropped on "Sprint 2" is shown in "Sprint 1" | Store a day inside the k-th fortnight, such as its middle, so the card stays in the column it was dropped on | not executed | RoadmapDrops.SprintDropAsWrittenLandsOneEarlier, RoadmapDrops.SprintTwoDropShowsInSprintOne | RoadmapDrops.SprintDropDay, RoadmapDrops.SprintDropRoundTrip |
| app.py:175 with static/js/roadmap.js:660-681 and 1440-1442 | update_feature always parses `data.get('date')`, but the status and release drops send no date | The body {"status": "completed"} is answered with 400, and the board's change is lost on reload | A missing date keeps the old date, like every other field | not executed | Backend.MergeFeatureAsWritten, Backend.StatusAndReleaseDropsRejected | Backend.MergeFeature, Backend.StatusAndReleaseDropsMerged |
| static/js/roadmap.js:1156-1169 | The quarter view reads a feature's date with `new Date("YYYY-MM-DD")`, which is UTC midnight, and takes the local month. The month view uses parseDate, which is local | West of UTC, a feature dated 2025-04-01 is in April in the month view but in Q1 2025 in the quarter view | Both views use the same local date | not executed | RoadmapBoard.QuarterViewShiftsWestOfUtc | RoadmapBoard.QuarterAgreesWithMonth, RoadmapBoard.QuarterCountIsMonthSum |
| static/js/collaboration.js:440-447 | Without an '@' before the cursor, lastIndexOf gives -1, `substring(0, -1)` is empty, and the cursor is set to username length + 1 | Value "hi ", cursor 3, username "al" gives "@al " with the cursor before the space | Insert at the cursor and keep the text before it | not executed | Collaboration.MentionInsertedAsWritten, Collaboration.InsertMentionWithoutAtLosesText | Collaboration.MentionInserted, Collaboration.InsertMentionKeepsContext |
| static/js/collaboration.js:289-307 with 183-190 | On success submitComment clears the box and disables submit, but its `finally` block then enables submit whatever the outcome | After a successful post, pressing Enter in the empty box posts "" | Leave submit disabled while the box is blank, as the input handler does | not executed | Collaboration.CommentBox.SubmitComment, Collaboration.EnterAfterPostSendsBlank | Collaboration.CommentBox.SubmitCommentCorrected, Collaboration.PostKeepsSubmitRule |
| setup_custom_domain.py:264-272 | The emptiness check runs before the scheme and 'www.' are removed | The input "https://" passes the check and an empty domain is sent to Mailgun | Check the normalised domain | not executed | CustomDomainSetup.DomainToSetUpAsWritten, CustomDomainSetup.SchemeOnlyReachesMailgun, CustomDomainSetup.SchemeOnlyEmptiesDomain | CustomDomainSetup.DomainToSetUp, CustomDomainSetup.SetupEnvChecked |
