# Moderation bot bookkeeping, in Dafny

This project models the state-keeping of a Discord moderation bot and proves properties about it. Its parts:

- **No-show ledger** (`cogs/no_show.py`). `/no-show-report` counts a member's missed operations and keeps one record per miss. `/no-show-stats` shows the top ten members by count.
- **Candidate tracking.** `/track-a-candidate` exists twice, in `cogs/no_show.py` and in `cogs/commend_candidate_tracking.py`. It scans the commendations channel for earlier "has attended an operation" messages that mention the candidate. It refuses a call that follows a match too closely. Otherwise it either announces the promotion or says how many operations are left.
- **Incident-report store** (`cogs/staff_tools.py`). Reports are a list of `{report_id, date, message_id}`. The form keeps a failed submission as the user's draft for 15 minutes. `/delete-report` parses a report number out of free text.
- **Performance-bonus ledger** (`cogs/commend_candidate_tracking.py`). `/commend` pays the *invoker* a bonus at most three times in any rolling 24 hours. `/performance-bonus` reads the total.
- **Older in-memory report index** (`botcommands.py`). It has a global `report_counter` and a dictionary from the reported user's id to `(report_id, jump_url)` pairs. Report ids are formatted as `Incident Report 0042`.

## Modelling choices

- **Layout.** Each source concern is one module in one file:
  - `common.dfy`: Option, ids, time units, the two configuration constants.
  - `text.dfy`: the Python string operations the commands use.
  - `no_show.dfy`, `candidate_tracking.dfy`, `staff_tools.dfy`, `performance_bonus.dfy` and `legacy_reports.dfy`.
- **State.** State the source changes in place is a class with those fields, whose methods state their whole new state:
  - `NoShowStore`: the no-show document, plus its key order.
  - `StaffDesk`: the reports file and the draft dictionary.
  - `PerformanceLedger`: the bonus document.
  - `LegacyReportIndex`: the counter and the index.
- **Scan loops.**
  - The channel scans and the loops that look for a report to delete are `while` loops, proved against recursive specification functions.
  - The leaderboard sort and the timestamp filter are pure functions, as in the source.
- **Time and money.**
  - Times are integer microseconds, which is the resolution of Python's `datetime`.
  - Bonus amounts are integer cents. The generator's range, 1000.00 to 10001.00, becomes 100000 to 1000100 cents, and the draw is a parameter.
- **Key order.** The no-show document keeps its keys in insertion order, as a Python `dict` does. The stable sort behind the leaderboard makes that order visible in how ties are listed.
- **Inputs.** Everything the commands learn from Discord or the file system is a parameter:
  - the channel history, the current time and the date parser's verdict;
  - whether a channel was found;
  - the outcome of posting or deleting a message, including the posts that follow a save: the no-show DM and staff-channel posts, the staff notice after an incident report is filed, in both versions, and the commendation post.
- **Count seed.** Each candidate-tracking copy seeds the count at 1, for the operation being tracked now, and the model follows the code. So the progress message (cogs/no_show.py:254-256) is reached only with no or one earlier match, and two earlier matches already promote; see `CandidateTracking.ConfiguredThreshold`.

## Model

| member | source | states |
|---|---|---|
| NoShow.NoShowStore.constructor | cogs/no_show.py:19-24 | a missing ledger starts as the empty document `{}` |
| NoShow.NoShowStore.Items | cogs/no_show.py:171 | `items()` pairs each key, in insertion order, with its entry |
| NoShow.NewEntry | cogs/no_show.py:56-60 | the `{count: 0, records: []}` a member without a record starts from; `ReportAllAppends` and `EscalatesFromThirdReport` start from it |
| NoShow.WithNoShow | cogs/no_show.py:63-68 | one more no-show: count + 1 and the record appended last; `ReportAllAppends` gives the effect of a run of them |
| NoShow.Escalates | cogs/no_show.py:112 | the `count >= 3` test of the alert; `EscalatesFromThirdReport` says when it holds |
| NoShow.NoShowStore.Report | cogs/no_show.py:42-136 | if the early acknowledgement raises, nothing is loaded or saved and the reply is the generic error. Otherwise it creates `{count: 0, records: []}` on a first report. Raises the count by 1 and appends the record last. Leaves other members' entries unchanged. A new member's key goes last in the order. Consistent entries stay consistent. The update is kept whatever follows the save. A DM that raises something other than Forbidden, or a staff post that raises, gives the generic error. A missing staff channel gives its own reply. Otherwise the reply carries the count and the escalation flag `count >= 3` |
| NoShow.NoShowStore.Stats | cogs/no_show.py:159-188 | on the store: "No no-show records found" iff the ledger is empty. Otherwise min(10, n) rows ranked 1, 2, …, each a ledger member with its stored entry, in non-increasing count order, with ties in ledger insertion order. No member left off the board has a higher count than a listed one |
| NoShow.ReportAllAppends | cogs/no_show.py:56-68 | a run of reports adds exactly as many to the count as records it appends, in order |
| NoShow.ReportAllKeepsConsistent | cogs/no_show.py:63-68 | reports keep `count == len(records)` |
| NoShow.EscalatesFromThirdReport | cogs/no_show.py:112-123 | for a new member, the k-th report escalates iff k >= 3, so every report after the third repeats the alert |
| NoShow.Standings | cogs/no_show.py:159-188 | an empty ledger gives "No no-show records found" and only then. Otherwise there are min(10, n) rows ranked 1, 2, … |
| NoShow.StandingsTop | cogs/no_show.py:171-173 | the listed members are in non-increasing count order and drawn from the ledger. No member left out has a higher count than a listed one |
| NoShow.StandingsStable | cogs/no_show.py:171-173 | for every count, the listed members with that count are a prefix of the ledger's members with that count, in ledger order (stable sort) |
| NoShow.Ranked | cogs/no_show.py:173-185 | the `enumerate` of the top rows: ranks 1, 2, … in the given order, each row showing that item |
| NoShow.SortByCount | cogs/no_show.py:171 | `sorted(items, key=count, reverse=True)` as an insertion sort; its properties are the three lemmas below |
| NoShow.SortByCountSorted | cogs/no_show.py:171 | the sort yields non-increasing counts |
| NoShow.SortByCountPermutes | cogs/no_show.py:171 | the sort is a permutation of the items |
| NoShow.SortByCountStable | cogs/no_show.py:171 | the sort keeps the relative order of equal counts |
| CandidateTracking.Matches | cogs/no_show.py:217 | a message counts iff its lowercased content contains the lowercased keyword and it mentions the member; `MatchCountIsCardinality` uses it |
| CandidateTracking.MatchCount | cogs/no_show.py:216-218 | the number of matching messages; `MatchCountIsCardinality` proves it is the size of the set of matching positions |
| CandidateTracking.LatestMatch | cogs/no_show.py:219-220 | the newest `created_at` among the matches; `LatestMatchIsMax` proves it is their maximum, and None iff nothing matches |
| CandidateTracking.Tracked | cogs/no_show.py:213-252 | the decision of one call: 1 plus the matches among the first `limit` messages, refused when the newest match is younger than the window, then promotion or the operations left. Its properties are the lemmas below |
| CandidateTracking.Track | cogs/no_show.py:205-252 | the scan loop's outcome equals `Tracked`: 1 plus the matches among the first `limit` messages, refusal on a match younger than the window, then promotion or the operations left |
| CandidateTracking.TrackInNoShowCog | cogs/no_show.py:213-252 | the 500-message, one-second copy. It refuses iff some scanned match is less than a second old |
| CandidateTracking.TrackInCommendCog | cogs/commend_candidate_tracking.py:113-157 | the 1000-message, one-hour copy. It refuses iff some scanned match is less than an hour old |
| CandidateTracking.MatchCountIsCardinality | cogs/no_show.py:216-218 | the count of matches is the number of positions whose lowercased content contains the lowercased keyword and that mention the member |
| CandidateTracking.LatestMatchIsMax | cogs/no_show.py:219-220 | the tracked time is the maximum `created_at` over the matches, attained by one of them. There is none iff nothing matches |
| CandidateTracking.RejectedIffRecentMatch | cogs/no_show.py:222-227 | the call is refused iff the channel exists and some scanned match is younger than the window |
| CandidateTracking.PromotedIffThreshold | cogs/no_show.py:229-252 | unless refused, promotion iff count >= TOTAL_OPERATIONS. Otherwise the remaining count is TOTAL_OPERATIONS - count, which is >= 1 |
| CandidateTracking.ConfiguredThreshold | cogs/commend_candidate_tracking.py:137-157 | with threshold 3: no earlier match leaves 2, one leaves 1, two or more promote |
| CandidateTracking.ScanAsWritten | cogs/commend_candidate_tracking.py:123-128 | the commend copy's loop as written: the first match stores its time, and any later match is a comparison error |
| CandidateTracking.ScanAsWrittenFailsOnSecondMatch | cogs/commend_candidate_tracking.py:123-128 | the commend copy's loop as written agrees with the intended scan while at most one message matches. From the second match on it fails |
| CandidateTracking.TwoEarlierOperationsBreakTheCommendCopy | cogs/commend_candidate_tracking.py:127-128 | two earlier matching messages: the as-written loop fails, the intended scan promotes with count 3 |
| StaffTools.StaffDesk.constructor | cogs/staff_tools.py:10 | the draft dictionary starts empty |
| StaffTools.StaffDesk.OpenForm | cogs/staff_tools.py:24-32 | outside the staff channel it replies and changes nothing. Otherwise it drops the user's draft if it has expired and pre-fills from the draft that remains |
| StaffTools.Expired | cogs/staff_tools.py:112-113 | a draft is dropped when its timestamp is non-zero and older than now minus 15 minutes |
| StaffTools.AfterExpiry | cogs/staff_tools.py:111-114 | the draft dictionary once the user's expired draft is deleted; the prefill follows from `Prefill` |
| StaffTools.DraftLifetime | cogs/staff_tools.py:111-114 | a draft kept at t pre-fills at now iff now − t <= 15 minutes, and is gone after that. Other users' drafts stay |
| StaffTools.LoadOrEmpty | cogs/staff_tools.py:126-136 | the list on_submit works on: the stored list, or the empty list for a missing file, invalid JSON or a non-list; `Submit` states its effect |
| StaffTools.Prefill | cogs/staff_tools.py:111-120 | the form's defaults: the user's draft form, or none without a draft; `DraftLifetime` says when it is there |
| StaffTools.StaffDesk.Submit | cogs/staff_tools.py:123-217 | a missing file, invalid JSON or a non-list document counts as the empty list. Once the date parses and the log post succeeds, `{NextId, date, message_id}` is appended and saved. It then replies with that id and clears the draft, unless the staff notice after the save raises. In that case the report stays filed, the form is kept as the draft and the reply is the generic error. A bad date or a failed log post stores the form as the draft and leaves the file alone |
| StaffTools.StaffDesk.DeleteReport | cogs/staff_tools.py:46-88 | the report is deleted iff in the staff channel, the number parses, the file is a list holding that number and the log message was deleted. The file is then the list without the first report with that number. Every other outcome leaves the file as it was, and each has its own reply: outside the channel, the channel refusal; an unparsable number or invalid JSON, "invalid format" (a ValueError); a missing file, the generic error; a non-list, the generic error unless empty ("does not exist"); no report with the number, "does not exist". Once the report is found: a missing guild or log channel gives no reply, a missing message "Could not find the message.", a refused deletion "Could not delete the message." |
| StaffTools.ReportTitle | cogs/staff_tools.py:167 | the log message's title `Incident Report {id:04}`; `ParseReportTitle` proves typing it back gives the id |
| StaffTools.FirstIndexOf | cogs/staff_tools.py:57-58 | the position of the first report with the number; its properties are `FirstIndexOfSpec` |
| StaffTools.RemoveAt | cogs/staff_tools.py:72 | `incident_reports.pop(i)`: the list without position i; its properties are `RemoveAtKeepsIncreasing` and `DeleteRemovesOnlyThatReport` |
| StaffTools.ParseReportNumber | cogs/staff_tools.py:53 | `int("".join(filter(str.isdigit, s)).lstrip("0"))`, with None for the ValueError; its properties are the two lemmas below |
| StaffTools.ParseReportNumberSpec | cogs/staff_tools.py:53 | the number is the value of the input's digits. It fails iff that value is 0 (no digits or only zeros), and a parsed number is >= 1 |
| StaffTools.ParseReportTitle | cogs/staff_tools.py:53 | typing back a report's `Incident Report NNNN` title gives its number n >= 1 |
| StaffTools.FirstIndexOfSpec | cogs/staff_tools.py:57-58 | the index found is the first position holding the number. There is none iff no report has it |
| StaffTools.NextId | cogs/staff_tools.py:142 | the last report's id plus 1, or 1 for an empty list; its properties are the lemmas below |
| StaffTools.NextIdIsFresh | cogs/staff_tools.py:142 | with increasing ids the new id exceeds every stored one, and appending keeps ids increasing |
| StaffTools.RemoveAtKeepsIncreasing | cogs/staff_tools.py:72 | popping one report keeps the others in order with their ids, without renumbering |
| StaffTools.DeleteRemovesOnlyThatReport | cogs/staff_tools.py:57-73 | with increasing ids the deletion removes exactly the report with that number and keeps all others in order |
| StaffTools.DeletingNewestFreesItsId | cogs/staff_tools.py:142 | after the newest report is deleted the next id is at most its id, and equal to it when the ids before it are consecutive |
| StaffTools.ChangesKeepIdsIncreasing | cogs/staff_tools.py:142-187 | any run of filings and deletions keeps ids strictly increasing, hence unique |
| PerformanceBonus.PerformanceLedger.constructor | cogs/commend_candidate_tracking.py:34-35 | the ledger is the document as loaded |
| PerformanceBonus.PerformanceLedger.Commend | cogs/commend_candidate_tracking.py:24-80 | a failed channel fetch changes nothing. Otherwise only the invoker's entry changes, to `Commended` of the old or fresh entry, saved before the post. The reply carries the bonus paid |
| PerformanceBonus.PerformanceLedger.Total | cogs/commend_candidate_tracking.py:87-93 | the user's total, 0 without an entry |
| PerformanceBonus.EntryOf | cogs/commend_candidate_tracking.py:40-41 | the user's stored entry, or the fresh `{count: 0, totalBonus: 0, timestamps: []}`; `CommendTouchesOnlyInvoker` uses it |
| PerformanceBonus.AwardedBonus | cogs/commend_candidate_tracking.py:46-52 | the bonus paid: 0 with three or more recent timestamps, the draw otherwise; `TotalNeverDecreases` adds it to the total, and `FourthAwardInADayRefused` proves it is 0 after three awards in a day |
| PerformanceBonus.TotalBonus | cogs/commend_candidate_tracking.py:92 | `.get(userId, {"totalBonus": 0})["totalBonus"]`; `TotalNeverDecreases` relates it across a commend |
| PerformanceBonus.Recent | cogs/commend_candidate_tracking.py:44 | the comprehension keeping the timestamps less than 86400 s old, in order |
| PerformanceBonus.Commended | cogs/commend_candidate_tracking.py:44-56 | the invoker's entry after one commend; its properties are `CommendSpec` and the lemmas below |
| PerformanceBonus.RecentMembers | cogs/commend_candidate_tracking.py:44 | the recent list holds exactly the stored timestamps t with now − t < 86400 s |
| PerformanceBonus.CommendSpec | cogs/commend_candidate_tracking.py:44-56 | rate-limited: 0 paid, count becomes the recent count, total and stored list unchanged. Awarded: positive bonus added, list becomes recent + [now] of length count <= 3, all recent |
| PerformanceBonus.TotalNeverDecreases | cogs/commend_candidate_tracking.py:48-55 | the total grows by exactly the bonus paid and never decreases |
| PerformanceBonus.CommendTouchesOnlyInvoker | cogs/commend_candidate_tracking.py:37-41 | only the invoker's entry changes and is created when missing. The first-time total is the bonus, and other users' totals are unchanged |
| PerformanceBonus.AtMostThreeAwardsPerDay | cogs/commend_candidate_tracking.py:44-56 | any run of commends inside one 24-hour window pays at most three bonuses |
| PerformanceBonus.FourthAwardInADayRefused | cogs/commend_candidate_tracking.py:46-49 | after three awards in the window, a further commend in it pays 0 and leaves the stored list as it is |
| LegacyReports.LegacyReportIndex.FileReport | botcommands.py:41-86 | the counter rises by 1 before the date is checked. A bad date, a failed log post or an empty subject leaves the index alone. Otherwise `(Incident Report NNNN, url)` is appended to the list of the subject's last word, creating it if needed, and no other key changes. The reply is the id, or the generic error when the staff notice after the update raises |
| LegacyReports.LegacyReportIndex.UserReportFile | botcommands.py:92-100 | a user's pairs in filing order, or none iff the user has no list |
| LegacyReports.LegacyReportIndex.DeleteReport | botcommands.py:109-129 | under three words: generic error. A non-integer third word: invalid format. A number >= the counter: does not exist. All three leave the state unchanged. Otherwise every list loses its first pair whose id is the whole input, and the counter drops by exactly 1 |
| LegacyReports.ReportIdFor | botcommands.py:46 | `f"Incident Report {str(report_counter).zfill(4)}"`; its properties are `ReportIdsDistinct` and `IssuedIdDecision` |
| LegacyReports.DeleteDecision | botcommands.py:112-115 | the judgement of the input: too few words, not an integer, not below the counter, or the number to remove |
| LegacyReports.RemoveFirst | botcommands.py:118-121 | one user's list without its first pair for the id |
| LegacyReports.RemoveEverywhere | botcommands.py:117-121 | every user's list with `RemoveFirst` applied |
| LegacyReports.FindLink | botcommands.py:118-119 | the position of the first pair with the id, or the length |
| LegacyReports.RemoveFirstAt | botcommands.py:118-121 | deleting at that position is `RemoveFirst`, and a list without the id is unchanged |
| LegacyReports.RemoveFirstCount | botcommands.py:118-121 | a list holding the id loses exactly one pair, one without it none |
| LegacyReports.ReportIdsDistinct | botcommands.py:46 | distinct counter values give distinct report ids |
| LegacyReports.IssuedIdDecision | botcommands.py:112-115 | an issued id is deletable iff its number is below the counter, so the newest report, numbered by the counter itself, never is |
| LegacyReports.NewestIdSurvivesDeletion | botcommands.py:45-46 | for every accepted input, the report holding the counter's own id survives the deletion. Together with `FileReport`'s ensures, which issue `ReportIdFor` of the raised counter, the next filing after the drop issues that id again, so the index can hold it twice |
| LegacyReports.UnpaddedInputAccepted | botcommands.py:112-113 | `Incident Report 2` passes the checks at counter 5 |
| LegacyReports.UnpaddedInputDeletesNothing | botcommands.py:117-121 | that input removes nothing from a list holding `Incident Report 0002` |
| Text.Lower | cogs/no_show.py:217 | `s.lower()` with ASCII case mapping: same length, each character lowered |
| Text.Contains | cogs/no_show.py:217 | `pat in s`; `ContainsAt` proves an occurrence at any offset makes it true |
| Text.IsSpace | botcommands.py:74 | `str.isspace()` on one character, over Python's whitespace set; `Split` splits on it |
| Text.DigitsOnly | cogs/staff_tools.py:53 | `"".join(filter(str.isdigit, s))` over ASCII digits: all digits, no longer than s; `ParseReportNumberSpec` uses it |
| Text.StripLeadingZeros | cogs/staff_tools.py:53 | `s.lstrip("0")`: s is some zeros followed by the result, which does not start with 0 |
| Text.ZFill | botcommands.py:46 | `s.zfill(4)`: zeros after an optional sign up to the width; `Pad4RoundTrip` and `Pad4OfNat` are its properties |
| Text.Pad4 | botcommands.py:46 | `str(i).zfill(4)`, the same as `f"{i:04}"`; `Pad4RoundTrip` and `Pad4OfNat` are its properties |
| Text.ParseInt | botcommands.py:112 | `int(s)` on an optional sign and ASCII digits, None for the ValueError; `Pad4RoundTrip` inverts `Pad4` with it |
| Text.Split | botcommands.py:74 | `str.split()` gives non-empty words without whitespace |
| Text.SplitIncidentReport | botcommands.py:112 | `Incident Report X` splits into three words with X third |
| Text.Pad4RoundTrip | botcommands.py:46 | `int(str(i).zfill(4)) == i` for every integer i |
| Text.Pad4OfNat | cogs/staff_tools.py:167 | `f"{n:04}"` of a natural number is all digits with value n. Stripping its zeros gives `str(n)` for n >= 1, and "" for 0 |
| Text.ContainsAt | cogs/no_show.py:217 | a pattern found at any position is `in` the string |

## Left out

- Discord itself is not modelled: the gateway, command registration, embeds, message text and modals. Channel lookups and message posts or deletions become parameters with their outcome, and so does the early acknowledgement of `/no-show-report` (cogs/no_show.py:42). Not followed are:
  - the final confirmation reply of a command raising;
  - the acknowledgement of `/no-show-stats` (cogs/no_show.py:149) raising, which would leave only the generic error. `Stats` changes nothing either way;
  - the first "Tracking progress" reply of either `/track-a-candidate` (cogs/no_show.py:206, cogs/commend_candidate_tracking.py:104) raising. The command would then stop before scanning and post nothing; the model always scans. Nothing is stored either way.
- Role-check decorators are left out: the library refuses the call before the body runs.
- JSON reading and writing, and `ensure_json_file_exists`, are whole-document loads and saves. The no-show and bonus documents are assumed well-formed; a corrupt file would raise before any change.
- Reading Data/incident_reports.json fails in only three modelled ways: a missing file, invalid JSON, or a document that is not a list. Any other read error, such as denied permission, would propagate out of the command, and it is not modelled.
- A report list whose entries lack `report_id` or `message_id`, or hold values of the wrong type, is not modelled. Such entries would raise inside the loops.
- The date parsers (`dateutil.parse`, `strptime`) are an oracle parameter: its answer, or its failure.
- `random` and floating point: the bonus is an input in cents. Rounding of float seconds and float sums is not modelled.
- `Text.Lower`, `Text.ParseInt`, `Text.DigitsOnly` and so `StaffTools.ParseReportNumber` cover ASCII only. Unicode case mapping, `int()`'s leading/trailing spaces and underscores, and Unicode digits are not modelled. For example, `Incident Report ４２` in fullwidth digits gives 42 in Python but None in the model. `Text.Split` splits on Python's full `str.isspace` set.
- Concurrency: handlers run one at a time. The lost update between two overlapping load/save pairs is outside a sequential model.
- `StaffTools.StaffDesk.OpenForm`: an exception while showing the form replies with an error, and is not modelled because it changes no state.
- The candidate tracker reads a channel history it is given. Fetching the history and sending the announcement are not modelled.
- cogs/feedback_commands.py, cogs/zit_feedback_command.py, cogs/ban_manager.py, special.py, slash.py and Main.py are not part of this model. They only forward forms or call the library. config.py contributes its two constants.

## Findings

| source | as written | input that shows it | evidently intended | confidence | as-written member | corrected member |
|---|---|---|---|---|---|---|
| cogs/commend_candidate_tracking.py:127-128 | the first match's `created_at` is stored with its timezone removed and then compared with the next match's timezone-aware `created_at`, which raises TypeError | a history with two messages that contain "has attended an operation" and mention the candidate | keep the newest matching time, as the copy in cogs/no_show.py does | not executed | CandidateTracking.ScanAsWritten, CandidateTracking.ScanAsWrittenFailsOnSecondMatch | CandidateTracking.TrackInCommendCog |
