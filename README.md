# Guild hunter dispatch engine, modelled in Dafny

This project models the dispatch engine of `app_v6_deploy.py`, the Streamlit
app in which admins post quests and hunters claim them. The quests live in a
Google Sheet called `quests`, which is the single source of truth. The model
leaves out the UI, the network and the AI calls, and keeps the logic that
decides what is written to the sheet and what a screen shows.

| file | module | what it holds |
|---|---|---|
| `wrappers.dfy` | `Wrappers` | `Option` |
| `text.dfy` | `Text` | Python string operations used by the app: `strip`, one-pass `replace`, `split(",")` / `",".join`, string `max`, `str(int)` |
| `normalize.dfy` | `Normalize` | `_normalize_quote_no`, `normalize_category`, the category lists |
| `quests.dfy` | `Quests` | the quests table read as a DataFrame (`Frame`), `ensure_quests_schema`, `is_me_busy`, the revenue split and `calc_my_total_month` |
| `grid.dfy` | `Grid` | the worksheet as a grid of rows, plus what gspread gives back: `col_values`, `row_values`, `cell().value`, batched cell writes |
| `sheet.dfy` | `QuestSheet` | the `Worksheet` class and its cached id index (`quest_id_to_row_map`, `invalidate_cache`), `get_header_map`, `update_quest_status` with `_resolve_row_by_scan`, `add_quest_to_sheet` |
| `lifecycle.dfy` | `Lifecycle` | the buttons that change a ticket's status, where they are offered, and what they do |
| `tracker.dfy` | `Tracker` | the "new quests" signature, the `Session` class over `st.session_state`, and the refresh widget's decisions |
| `dashboard.dfy` | `Dashboard` | the team label, the default-tab pickers, the KPI tier, the streak and balloon latches, and the team-progress wall |

A worksheet is a sequence of rows of cell texts. Row 1 is the header, and
rows may have different lengths. Rows are numbered from 1 and so are
columns, as in gspread. A cell outside the stored grid reads as empty.

The sheet object holds its rows and the cached id index. It is modelled as a
class whose methods change them:
- a batch update overwrites cells of one row;
- an append adds one row;
- an invalidation drops the cached index.

The session state of a browser session is a `map<string, Value>` field of
the `Session` class. Time is a whole number of seconds passed in as a
parameter. The generated quest id and the creation-time text are also
parameters.

Behaviours the proofs pin down:
- `_normalize_quote_no` is not idempotent. `"估價估價單號單號"` normalises to
  `"估價單號"`, and normalising that gives `""`, because `replace` does not
  rescan its output. It is idempotent whenever its output no longer contains
  the label.
- Only the claimant of a project is checked for being busy. A teammate who
  is already on an active ticket can still be named, and then sits on two
  active tickets.
- Setting a ticket `Open` empties its teammates but keeps its claimant.
- The "連續達標 Streak" counter of the hunter banner never exceeds 1. It
  grows only on a hit that follows a miss, and every miss resets it to 0.
- The balloons fire exactly on the runs where the target is hit and the
  previous run missed it.
- `update_quest_status` compares the id cell as `str(cell.value).strip()`,
  so an empty id cell reads as the text `None`. An update lands on a row
  holding its id except for a quest id that strips to `None`.

The model does what the code does, including where a stricter design would
do otherwise:
- the teammates named in a project claim are not busy-checked;
- no button reopens a ticket;
- an update to `Open` clears only the teammate cell;
- `normalize_category` falls back to `TYPE_ENG[0]` for every budget other
  than 0, negative budgets included.

## Model

| member | source | states |
|---|---|---|
| Text.JoinThenSplitNames | app_v6_deploy.py:435 | joining the non-empty names with "," and splitting the result back (dropping empties) gives the non-empty names, when no name holds a comma |
| Text.MaxString | app_v6_deploy.py:251-252 | the string `max` of a non-empty column is one of its values, and every value sorts at or below it |
| Text.LexLeAntisym | app_v6_deploy.py:251-252 | two texts each at or below the other in code-point order are equal, so the column `max` is a single value |
| Normalize.NormalizeQuoteNo | app_v6_deploy.py:89-94 | the normalised quote number holds no whitespace and no full-width colon, and neither starts nor ends with `-`, `_`, `#`, `:` or `：` |
| Normalize.NormalizeIdempotentWithoutLabel | app_v6_deploy.py:89-94 | normalising twice equals normalising once whenever the first result does not contain the label `估價單號` |
| Normalize.DropLabelsAbsent | app_v6_deploy.py:93 | removing the labels leaves a text that does not contain `估價單號` unchanged |
| Normalize.DropLabelsWithin | app_v6_deploy.py:93 | removing the labels adds no character |
| Normalize.NormalizeNotIdempotent | app_v6_deploy.py:93 | `"估價估價單號單號"` normalises to `"估價單號"`, which normalises to `""`, so the normaliser is not idempotent |
| Normalize.NormalizeCategory | app_v6_deploy.py:518-524 | the result is always one of the known categories; a stripped known category is returned as is; otherwise a zero budget gives `場勘報價` and any other budget `TYPE_ENG[0]` |
| Normalize.NormalizeCategoryIdempotent | app_v6_deploy.py:518-524 | normalising a normalised category again, under any budget, returns it unchanged |
| Quests.EnsureQuestsSchema | app_v6_deploy.py:97-103 | an empty frame is returned as is; any other frame gets exactly the quest columns, the same number of rows, and each row conformed to them |
| Quests.ConformGet | app_v6_deploy.py:99-103 | after the schema fix-up, a column the frame had keeps its value, a missing text column reads "" and missing points read 0 |
| Quests.EnsureQuestsSchemaIdempotent | app_v6_deploy.py:97-103 | applying the schema fix-up twice equals applying it once |
| Quests.IsMeBusy | app_v6_deploy.py:660-669 | false on an empty table; otherwise true exactly when some `Active` row has the user as hunter or among its non-empty comma-split partners |
| Quests.BusyIn | app_v6_deploy.py:663-669 | the search loop answers true exactly when an `Active` row lists the user on its team |
| Quests.CalcMyTotalMonth | app_v6_deploy.py:633-656 | the loop's total equals `MonthTotal`: over `Done` rows created in the month whose team holds the user, the hunter's share plus remainder or a partner's share |
| Quests.PayoutsSumToPoints | app_v6_deploy.py:651-654 | for a team with no name twice, the payouts of one ticket to its members add up to exactly its points, and `0 <= rem < len(team)` |
| Quests.Payout | app_v6_deploy.py:648-654 | a user off the ticket's team earns nothing from it, and on non-negative points no one earns more than the points |
| Quests.MonthTotal | app_v6_deploy.py:633-656 | an empty table gives 0, and a table with non-negative points never gives a negative total |
| Quests.PartnersShare | app_v6_deploy.py:651-654 | the payouts to team members other than the hunter come to the plain share `points // len(team)` each |
| Quests.DivModSplit | app_v6_deploy.py:652-653 | share plus remainder for the hunter and the share for everyone else add up to the amount, and the remainder is below the team size |
| Quests.PayoutOfHundredByThree | app_v6_deploy.py:651-654 | 100 points split by a team of three pays the hunter 34 and each partner 33 |
| Quests.TotalOfOutsider | app_v6_deploy.py:648-649 | a user on the team of no counted row earns 0 that month |
| Quests.TotalOfAppend | app_v6_deploy.py:643-654 | the total over two tables put one after the other is the sum of their totals |
| Quests.TotalOfIgnoresOthers | app_v6_deploy.py:640-641 | a row that is not `Done` in the month, at any position in the table, adds nothing to anyone's total |
| Quests.SoloTicketPaysInFull | app_v6_deploy.py:633-656 | one `Done` row of the month, claimed solo and worth 90, gives its hunter a total of 90 |
| Grid.ColValues | app_v6_deploy.py:228 | `col_values` returns the column's cells from row 1 down, no longer than the sheet, and every cell below what it returns is empty |
| Grid.TrimTrailing | app_v6_deploy.py:228 | trimming keeps a prefix that ends in a non-empty cell (or is empty), and everything cut off is empty |
| Grid.CellValue | app_v6_deploy.py:408 | `cell().value` is `None` exactly for an empty cell |
| Grid.LastPositions | app_v6_deploy.py:230-235 | the map sends each non-empty key past the skipped prefix to the 1-based position of its last occurrence, and holds nothing else |
| Grid.HeaderMap | app_v6_deploy.py:241-243 | every header name maps to a column whose stripped header cell is that name, and every non-empty header cell's name maps to that column or a later one |
| Grid.LastPositionsInjective | app_v6_deploy.py:242-243 | two different keys of the map never share a position |
| Grid.MaxPositionIsMax | app_v6_deploy.py:353 | `max(hmap.values())` is the largest column of the header map and is one of its columns; it is 0 only for an empty map |
| Grid.ScanMeetsIndex | app_v6_deploy.py:398-405 | for an id in the index, the scan finds a row, at or above the row the index gives; both agree when no id repeats |
| Grid.LayoutPlaced | app_v6_deploy.py:354-365 | with distinct columns, filling `[""] * n` value by value leaves each value in its column and every other cell empty |
| Grid.ApplyWrites | app_v6_deploy.py:450 | after a batch on one row, each cell holds the last text written to it in that row, and every other cell is unchanged |
| QuestSheet.RowIndex | app_v6_deploy.py:229-236 | the id index never maps an id to the header row |
| QuestSheet.Worksheet.BuildRowIndex | app_v6_deploy.py:228-236 | the loop builds exactly `RowIndex`: each stripped non-empty id below the header goes to its last row |
| QuestSheet.Worksheet.RowMap | app_v6_deploy.py:221-238 | the index comes from the cache when present, otherwise it is built and cached; the rows are untouched |
| QuestSheet.Worksheet.Invalidate | app_v6_deploy.py:216-218 | the cache is dropped and the rows are untouched |
| QuestSheet.HeaderMapDistinct | app_v6_deploy.py:241-243 | no two header names share a column, and every column is at least 1 |
| QuestSheet.AddedQuestIsIndexed | app_v6_deploy.py:229-236 | a fresh index finds an appended quest with a non-blank id at the appended row |
| QuestSheet.Worksheet.ResolveRowByScan | app_v6_deploy.py:397-405 | the scan returns the first row below the header whose stripped id cell equals the stripped quest id, or none |
| QuestSheet.ScanFindsFirst | app_v6_deploy.py:400-404 | a found row holds the id and no row between the header and it does |
| QuestSheet.ScanFindsNone | app_v6_deploy.py:405 | the scan finds nothing when no row below the header holds the id |
| QuestSheet.IdCellText | app_v6_deploy.py:407-412 | a non-empty id cell is read as its stripped text |
| QuestSheet.TargetRow | app_v6_deploy.py:387-417 | there is no target for an id missing from the index, and the indexed row is the target whenever its id cell still holds the id |
| QuestSheet.Worksheet.LocateRow | app_v6_deploy.py:407-417 | the row found is the indexed row when its id cell still matches, else the scan's result, and never the header row |
| QuestSheet.UpdateTargetsMatchingRow | app_v6_deploy.py:407-417 | for an id that does not strip to `None`, the target row holds the id; a target found by re-scanning is the first such row |
| QuestSheet.TargetRowBelowHeader | app_v6_deploy.py:400-402 | an update never targets the header row |
| QuestSheet.UpdateFailsWhenNotFound | app_v6_deploy.py:388-416 | the update plan fails when the id is not indexed, or when the indexed cell does not match and no row holds the id |
| QuestSheet.UpdateNeedsStatusHeader | app_v6_deploy.py:419-424 | the update plan fails when the sheet has no `status` header |
| QuestSheet.StatusWrites | app_v6_deploy.py:419-448 | the writes exist exactly when every header they need is present, and are one to three writes, the status first |
| QuestSheet.StatusPlan | app_v6_deploy.py:387-448 | there is a plan exactly when there is a target row and the writes exist, and it puts those writes on that row |
| QuestSheet.Worksheet.BatchUpdate | app_v6_deploy.py:450 | the rows become the writes applied to the row, and the cache is kept |
| QuestSheet.StatusWritesLast | app_v6_deploy.py:419-448 | the batch writes the status, the claimant only when one is given, and the teammate cell with the joined non-empty names when a list is given or "" when the new status is `Open` |
| QuestSheet.StatusBatchEffect | app_v6_deploy.py:419-450 | after the batch, the target row's status, claimant and teammate cells hold what was sent and every other cell of the sheet is unchanged |
| QuestSheet.Worksheet.UpdateQuestStatus | app_v6_deploy.py:375-456 | on success the batch is applied to the planned row, which is below the header, and the cache is dropped; on failure the rows are untouched |
| QuestSheet.QuestRowFor | app_v6_deploy.py:345-365 | a row is produced exactly when every required header is present, and it is as wide as the rightmost named header |
| QuestSheet.QuestColumnsInRange | app_v6_deploy.py:353-354 | every quest column lies inside the row `[""] * max_col` |
| QuestSheet.PlanQuestRow | app_v6_deploy.py:345-365 | computes the row `QuestRowFor` describes |
| QuestSheet.NewQuestRow | app_v6_deploy.py:353-365 | the ten assignments into `[""] * max_col` produce the layout of the new quest's values under their headers |
| QuestSheet.AddedRowPlacesFields | app_v6_deploy.py:356-365 | the appended row holds each of the ten fields in its header's column and nothing anywhere else |
| QuestSheet.AddedRowIsOpen | app_v6_deploy.py:356-365 | the appended row has status `Open`, an empty claimant and teammate cell, the normalised quote number and the generated id |
| QuestSheet.Worksheet.AddQuest | app_v6_deploy.py:325-372 | with all headers present, exactly one row is appended and the cache is dropped; otherwise nothing changes |
| QuestSheet.Worksheet.AppendRow | app_v6_deploy.py:367-368 | the row is appended after the existing rows and the cache is dropped |
| Lifecycle.CallOf | app_v6_deploy.py:1160-1161 | every button sends `Active`, `Pending` or `Done`, never `Open`; a claimant and a teammate list are sent exactly for the two claims |
| Lifecycle.Offered | app_v6_deploy.py:1119-1240 | a claim is offered only on an `Open` ticket to a user who is not busy, and no button is offered on a `Done` ticket |
| Lifecycle.BatchMatchesTicket | app_v6_deploy.py:419-450 | on the sheet, the status, claimant and teammate cells after a status call's batch hold the fields of the ticket after the same call |
| Lifecycle.ApplyToTicket | app_v6_deploy.py:419-448 | an update changes only status, claimant and teammates; id, title, quote number, description, category, points and creation time keep their values |
| Lifecycle.OfferedMovesAlongEdge | app_v6_deploy.py:1118-1240 | every offered button moves its ticket along Open→Active, Active→Pending, Pending→Done or Pending→Active, and never to `Open` |
| Lifecycle.EveryEdgeIsOffered | app_v6_deploy.py:861-866 | each of those four edges is taken by some button offered on a ticket with the right status and a known category |
| Lifecycle.UnknownRankIsNeverClaimed | app_v6_deploy.py:1119 | an open ticket whose category is in neither list is offered on neither claim screen |
| Lifecycle.OpenKeepsHunter | app_v6_deploy.py:442-448 | an update to `Open` empties the teammate cell and keeps the claimant |
| Lifecycle.RejectKeepsTeam | app_v6_deploy.py:864-865 | a rejected ticket returns to `Active` with its claimant and teammates unchanged |
| Lifecycle.AfterUpdate | app_v6_deploy.py:450 | a status update changes one row of the table and no other |
| Lifecycle.BusyOnFullTable | app_v6_deploy.py:660-669 | on a table with every quest column, busy means some `Active` row lists the user on its team |
| Lifecycle.ClaimLocksClaimant | app_v6_deploy.py:1203-1204 | after a claim the claimant is busy, so every claim button is disabled for them |
| Lifecycle.ClaimLocksTeammates | app_v6_deploy.py:1151-1161 | a project claim also makes every named, comma-free teammate busy |
| Lifecycle.ReportReleasesLock | app_v6_deploy.py:1238-1240 | reporting the only active ticket a user is on leaves them not busy |
| Lifecycle.BusyTeammateCanBeNamed | app_v6_deploy.py:1151-1160 | a concrete table in which a busy user can still be named as a teammate by a free claimant |
| Lifecycle.ClaimedTeam | app_v6_deploy.py:1151-1161 | a claim puts exactly the claimant and the non-empty teammates on the team, with no name twice |
| Lifecycle.ClaimReportApprovePays | app_v6_deploy.py:861-1240 | an open maintenance ticket worth 90, claimed by a free worker, reported by them and approved, each button offered at its step, gives them 90 for the month |
| Tracker.ColumnMax | app_v6_deploy.py:251-252 | the column maximum is one of the column's values and no value sorts above it; a missing column gives "" |
| Tracker.LatestSignature | app_v6_deploy.py:247-253 | an empty table signs as `EMPTY`; any other table's signature holds the `\|` separator |
| Tracker.SignatureEmptyIff | app_v6_deploy.py:247-253 | the signature is `EMPTY` exactly for an empty table, and is never "" |
| Tracker.SignatureIgnoresStatusUpdates | app_v6_deploy.py:251-253 | a claim, report, approval or rejection leaves the signature unchanged |
| Tracker.LaterQuestChangesSignature | app_v6_deploy.py:251-253 | a quest created later than every other, with no `\|` in the creation times, changes the signature |
| Tracker.MaxUnmoved | app_v6_deploy.py:251-252 | appending a quest whose value in a column is at or below the column's `max` leaves that `max` as it was |
| Tracker.LaterIdMovesMax | app_v6_deploy.py:252 | appending a quest whose id sorts above every id moves the id `max` |
| Tracker.LaterIdChangesSignature | app_v6_deploy.py:251-253 | a quest created no later than the latest one but whose id sorts above every id changes the signature: the creation-time half stays, the id half moves |
| Tracker.SamePrefixDiffers | app_v6_deploy.py:253 | two signatures sharing the part up to the last `\|` differ when their id parts differ |
| Tracker.Stale | app_v6_deploy.py:279-280 | a screen never refreshed is stale; otherwise it is stale exactly when 15 seconds or more have passed |
| Tracker.FirstCheckStores | app_v6_deploy.py:256-262 | the first check of a screen reports nothing and stores the signature, and the next check on the same table reports nothing |
| Tracker.MarkSeenThenCheck | app_v6_deploy.py:265-266 | after marking seen, a check reports new quests exactly when the signature has changed |
| Tracker.ClickKeepsTab | app_v6_deploy.py:316-318 | a click keeps the tab a screen is on, and a screen without one gets the picked tab |
| Tracker.ClickMakesFresh | app_v6_deploy.py:312-314 | right after a click the screen is not stale for 15 seconds and reports no new quests on the same table |
| Tracker.Session.HasNewQuests | app_v6_deploy.py:256-262 | the answer and the new session state are those of `HasNew` and `AfterCheck` |
| Tracker.HasNew | app_v6_deploy.py:256-262 | a screen with no stored signature never has new quests, nor one whose stored signature is the latest |
| Tracker.AfterCheck | app_v6_deploy.py:256-262 | a check adds at most the signature key and changes no other key; a stored signature stays as it was |
| Tracker.AfterClick | app_v6_deploy.py:312-318 | a click adds the signature, stamp and tab keys and changes no other; the signature key holds the latest and the stamp key the time |
| Tracker.Session.MarkSeen | app_v6_deploy.py:265-266 | the session stores the current signature under the key |
| Tracker.Session.InitTab | app_v6_deploy.py:1104-1105 | the tab is set only when the session has none |
| Tracker.Session.RefreshWidget | app_v6_deploy.py:279-318 | the button shows exactly when the screen is stale or has new quests; a click drops the sheet cache, marks seen, stamps the time and sets the tab only if absent; the sheet rows are untouched |
| Dashboard.TeamLabelPartition | app_v6_deploy.py:672-679 | each team member gets their own team's label, and only users on no team are labelled `未分組` |
| Dashboard.MyTeamLabel | app_v6_deploy.py:672-679 | the label is one of the three team labels or `未分組`, and `未分組` exactly for a user on no team |
| Dashboard.PickAdminTab | app_v6_deploy.py:739-744 | the review tab exactly when some ticket is `Pending`, otherwise the dispatch tab; `None` is the lookup failure on an empty sheet without a status column |
| Dashboard.PickHunterTab | app_v6_deploy.py:904-912 | the project tab exactly when an open project exists, else the repair tab exactly when an open maintenance job exists, else the hunter's tasks |
| Dashboard.EngTabOffersClaim | app_v6_deploy.py:906-909 | when the hunter screen opens on the project tab, some row there offers a free hunter a claim |
| Dashboard.PickTier | app_v6_deploy.py:945-955 | the loop picks the last tier whose minimum the total reaches, or the first tier |
| Dashboard.LastReached | app_v6_deploy.py:952-955 | the tier found among the first tiers is the first one or one whose minimum the total reaches |
| Dashboard.TierBrackets | app_v6_deploy.py:952-955 | a non-negative total reaches its tier's minimum and falls short of the next tier's |
| Dashboard.TierMonotone | app_v6_deploy.py:945-955 | a larger total never shows a lower tier |
| Dashboard.HitIsEliteTier | app_v6_deploy.py:938-948 | the target is hit exactly when the tier shown is `菁英` or higher |
| Dashboard.UpdateStreak | app_v6_deploy.py:936-943 | the hit flag is `total >= 250000`; the session gets the streak and previous-hit flag of one latch step |
| Dashboard.StreakAtMostOne | app_v6_deploy.py:936-943 | from a fresh session the streak is 1 exactly when the latest run hit and 0 otherwise |
| Dashboard.StreakAfterTracksRun | app_v6_deploy.py:936-943 | one latch step on a session carries the streak of a run of hits to the streak of that run extended by this one |
| Dashboard.FireBalloons | app_v6_deploy.py:960-965 | the balloons fire exactly on a hit not yet celebrated, and the fired flag then equals the hit |
| Dashboard.BalloonsAfterTracksRun | app_v6_deploy.py:960-965 | a session whose flag is that of the runs so far fires in this run exactly when the run-by-run latch does, and then holds the flag of the longer run |
| Dashboard.FiredAfterLastHit | app_v6_deploy.py:960-965 | after a session's runs, the fired flag is up exactly when the latest run hit |
| Dashboard.BalloonsOnRisingEdge | app_v6_deploy.py:960-965 | over a session's runs of the latch, the balloons fire exactly on a hit whose previous run missed |
| Dashboard.LevelMonotone | app_v6_deploy.py:1063-1070 | a larger total never lands in a lower bucket, and the top bucket is exactly the banner's hit |
| Dashboard.LevelOf | app_v6_deploy.py:1062-1070 | a total is in the top bucket exactly when it reaches the target, in one of the top two exactly when twice it reaches the target, and in the bottom one exactly when it is not positive |
| Dashboard.LevelsPartition | app_v6_deploy.py:1059-1070 | the four bucket counts add up to the number of hunters |
| Dashboard.TeamWall | app_v6_deploy.py:1059-1070 | each counter equals the number of hunters whose monthly total falls in its bucket |

## Left out

- Streamlit rendering is left out because it is UI: CSS, widgets, columns, spinners, toasts, `st.rerun`, `st.balloons` (only whether they fire is modelled), the autorefresh polling, and the red badge.
- `connect_db`, `get_data` and the gspread and oauth2 calls are network I/O. The sheet is in memory, and the frame a screen reads is a parameter.
- The `st.cache_data` TTLs are left out because they are timing. The id index is an explicit cache that `invalidate_cache` drops. The 5-second cache of `_latest_quest_signature`, which `invalidate_cache` does not clear, is not modelled: the signature is computed from the frame passed in.
- `analyze_quote_image` (an HTTP call to Gemini) and `extract_first_json_object` (a JSON parser) are foreign code.
- `verify_password`, `_hash_password_pbkdf2` and `admin_access_key_ok` are foreign crypto and configuration.
- `_safe_int` is float parsing. Points are integers already, as `get_data` coerces them.
- The `progress` bar value at app_v6_deploy.py:957-958 is floating point.
- `uuid4` and `datetime.now` are parameters: the id, the creation-time text and the current time in whole seconds. The refresh stamp is a float in the source.
- The race between clients writing the same sheet, and rows inserted or deleted by hand between a read and a write, are concurrency. The model covers a stale cache seeing such a change, not the interleaving itself.
- `USER_ENTERED` value interpretation by Sheets is foreign. Points are written as their decimal text, and every cell is read back as the text written.
- `append_row`'s table detection is foreign: the row is appended right after the stored rows.
- The admin dispatch and data screens, login and the sidebar are UI around the modelled operations.
- Tracker.Session.RefreshWidget: `pick_tab_fn` is called only on a click for a screen without a tab; the model takes its result as a parameter, so a picker that fails (see `PickAdminTab`'s `None`) is not modelled as an exception inside the widget.
- Tracker.LatestSignature: `max` over a pandas column of texts is taken as Python's code-point order on strings.
- Quests.ConformGet: `ensure_quests_schema` (app_v6_deploy.py:99-101) fills a missing `points` column with "" rather than 0, and adds the missing columns to the caller's frame in place. Every reader turns those points into 0 (app_v6_deploy.py:638 and `_safe_int`), so the model reads 0; no modelled behaviour depends on the in-place change.
- Dashboard.UpdateStreak: requires that the session holds a number under `streak` and flags under `prev_hit` and `target_fx_fired`, which is all the app ever stores there.
