# Bless network node monitor — a Dafny model

The monitor polls the Bless network node API for the list of nodes that
belong to an account token. It compares each poll's snapshot with the one
it stored on the previous poll and posts a text report to a chat webhook.
Two variants exist:

- `main.py` watches one token and keeps one global stored snapshot.
- `mmain.py` watches a list of tokens, each with its own stored snapshot,
  and polls them concurrently in rounds.

The core modelled here is shared by both variants:

- the diff engine `compare_states`;
- the two report builders `build_message` (changes) and
  `build_status_message` (full status);
- the per-identity step that decides which report to send and when to
  replace the stored snapshot.

The code of `compare_states`, `build_message` and `build_status_message` is
identical in the two files (mmain.py:172-221 and 250-277, main.py:131-180
and 226-253). Each table row cites one of the two copies.

Modules:

- `Nodes` (nodes.dfy): the node record and a snapshot, which is the node
  list in API order. It also holds the first-match lookup by `_id` that
  `compare_states` performs with a generator and `next()`.
- `Text` (text.dfy): Python's `str()` of an integer, with a parser that reads
  it back. Also `s[:n]` truncation and `"\n".join`.
- `Diff` (diff.dfy): `compare_states`. It is a specification function
  `CompareStates` plus the source's appending loop `CompareStatesLoop`, which
  is proved equal to it. Each difference is a `Change` value, and
  `ChangeText` renders a change as the source's line text.
- `Reports` (reports.dfy): both report builders, as lists of lines. The text
  sent is the lines joined with newlines. The status report also has its
  looping form, `BuildStatusMessageLoop`, which is proved equal to it.
- `Monitor` (monitor.dfy): the decision `Decide`/`Step` and the delivery and
  commit rule. It has three parts:
  - class `NodeMonitor`: one pass of main.py's `while True` loop.
  - class `TokenMonitor`: mmain.py's `monitor_single_token` on one token's
    stored snapshot.
  - `RunCycle`: one round of mmain.py's `monitor_nodes` over all tokens.

Inputs that come from the outside world are parameters:

- the fetch result is `Option<Snapshot>`, where `None` means the fetch raised;
- the formatted timestamp is a string;
- the outcome of the webhook POST is `posted`, which is false when the POST raised;
- whether mmain.py's shared HTTP session could be opened is `sessionOpened`;
- the always-notify flag;
- the polling interval.

The stored snapshot is replaced only after the webhook call has returned.
The commit (main.py:216, mmain.py:60) follows `await send_message_async`
inside the same `try`. So a POST that raises leaves the stored snapshot
unchanged. The next usable poll then compares its fetch with that older
snapshot and reports every change since the last committed one. A first-run
status report whose POST raises stores nothing, so the next usable poll is
a first run again. A non-200 reply is only printed, and the commit still
happens. The model follows the code here (`Monitor.Committed`), not the
reading that the snapshot is always replaced after a usable fetch.

## Model

| member | source | states |
|---|---|---|
| Nodes.FirstIndex | mmain.py:178 | the index found carries the id, and no earlier record does; it is `|s|` exactly when none matches |
| Nodes.FindById | mmain.py:178 | the lookup yields nothing exactly when no record carries the id; a record found carries the id |
| Nodes.FindByIdFirst | mmain.py:178 | the record found is the first record carrying the id |
| Nodes.FindOwnRecord | mmain.py:178 | in a snapshot with unique ids, looking up a member's own id finds that member |
| Nodes.FindStep | mmain.py:178 | the scan takes the head when it matches, else searches the rest |
| Nodes.FindConcat | mmain.py:178 | a lookup in `a + b` finds the match in `a` if there is one, else the one in `b` |
| Nodes.FindIgnoresOtherIds | mmain.py:178 | removing a record with a different id does not change the lookup |
| Text.Digit | mmain.py:192 | a digit character with the given value |
| Text.NatStr | mmain.py:262 | `str(n)` is non-empty, all digits, no leading zero |
| Text.IntStr | mmain.py:192 | `str(i)` starts with '-' exactly when `i` is negative |
| Text.NatStrRoundTrip | mmain.py:262 | the digits printed for a count read back as the count |
| Text.IntStrRoundTrip | mmain.py:264 | the text printed for an integer reads back as that integer |
| Text.IntStrInjective | mmain.py:192 | distinct integers print differently |
| Text.Truncate | mmain.py:271 | `s[:n]` has length `min(|s|, n)` and is a prefix of `s` |
| Text.Join | mmain.py:221 | `"\n".join(lines)` starts with the first line; the separator placement is stated by Text.JoinCons |
| Text.JoinCons | mmain.py:221 | joining one more line in front puts that line and one separator before the old text |
| Diff.FieldChanges | mmain.py:184-200 | a matched record yields at most four entries |
| Diff.ChecksStep | mmain.py:184-200 | each field check that appends its entry exactly when its field differs keeps the order and correctness of the entries so far |
| Diff.FieldChangesMeetSpec | mmain.py:184-200 | for a matched record: one entry per differing field and none otherwise; each entry holds the record's key with the correct new state, delta (current minus previous) or old and new session counts; the order is connectivity, total reward, today's reward, sessions |
| Diff.StrictlyRankedUnique | mmain.py:184-200 | two lists in strict check order with the same members are equal |
| Diff.DescribesDetermines | mmain.py:184-200 | for a given field there is only one correct entry |
| Diff.SpecEntriesShared | mmain.py:184-200 | two lists meeting the field specification hold the same entries |
| Diff.FieldChangesUnique | mmain.py:184-200 | any list meeting the field specification is the one the checks produce |
| Diff.NodeChanges | mmain.py:177-200 | one record of the current snapshot yields at most four entries |
| Diff.NodeChangesSpec | mmain.py:178-182 | an unmatched record yields exactly one "new node" entry and no field entries; a matched record yields the field entries against its first match |
| Diff.CompareStates | mmain.py:172-202 | the change list holds at most four entries per current record |
| Diff.CompareStatesSnoc | mmain.py:176-202 | one more current record appends exactly that record's entries |
| Diff.CompareStatesConcat | mmain.py:176-202 | the entries follow the order of the current snapshot: each part contributes its own entries in place |
| Diff.CompareStatesAround | mmain.py:176-202 | a record anywhere in the current snapshot contributes its entries at its own position |
| Diff.CompareWithSelfIsEmpty | mmain.py:172-202 | a snapshot with unique ids compared with itself yields no entries |
| Diff.PrefixUnchanged | main.py:131-161 | every prefix of a unique-id snapshot, compared with the whole, yields no entries |
| Diff.SelfCompareNeedsUniqueIds | mmain.py:178 | with a duplicated id the self-comparison is not empty: the later duplicate is compared with the first |
| Diff.RemovedNodesIgnored | main.py:135-137 | records present only in the previous snapshot never affect the entries |
| Diff.AddedCountConcat | main.py:139-141 | the "new node" count adds up over concatenated change lists |
| Diff.FieldChangesAddNothing | main.py:143-159 | the field checks never produce a "new node" entry |
| Diff.NewNodesReportedOnce | main.py:137-141 | the number of "new node" entries equals the number of current records whose id is absent from the previous snapshot |
| Diff.CompareStatesLoop | mmain.py:172-202 | the source's loop with `continue` and appends computes exactly the change list |
| Diff.AppendFieldChanges | mmain.py:184-200 | the four guarded appends add exactly the field entries of the record |
| Diff.ChangeText | mmain.py:181-200 | the line text of each kind of entry; its shape is stated by Diff.ChangeTextNamesKey, Diff.ConnectivityText, Diff.RewardText and Diff.SessionsText |
| Diff.ChangeTextNamesKey | mmain.py:181-200 | every line names the node's key right after its label: "新增节点: " for a new node, "节点 " for a field change |
| Diff.ConnectivityText | main.py:144-146 | the connectivity line names the node's key and ends in "上线" exactly when the node is now connected, else "离线" |
| Diff.RewardText | main.py:149-155 | both reward lines (total and today's) print a literal "+" and then the exact difference current − previous, which reads back; they show "+-" exactly when the reward fell |
| Diff.SessionsText | main.py:158-159 | the session-count line names the key, then prints exactly `str(old)`, " -> " and `str(new)`; by Text.NatStrRoundTrip both counts read back |
| Diff.RewardOnlyScenario | mmain.py:190-192 | a total reward rising from 10 to 15, with nothing else changed, gives exactly one entry, a delta of 5 |
| Diff.AllNewAgainstEmpty | mmain.py:178-182 | against an empty previous snapshot every record gives one "new node" entry, in order |
| Diff.SessionsOnly | main.py:158-159 | a record differing only in its session count yields one entry holding the old and new counts |
| Reports.Bullets | mmain.py:218-219 | one "- " line per change, in order |
| Reports.BuildMessage | mmain.py:204-221 | no report exactly when the change list is empty; otherwise the three header lines and then one "- change" line per change, in order |
| Reports.TotalRewardSum | mmain.py:255 | the sum of the total rewards; its additivity is stated by Reports.RewardSumsConcat and its printed line by Reports.StatusAggregatesReadBack |
| Reports.TodayRewardSum | mmain.py:256 | the sum of today's rewards; additivity and printed line as for the total |
| Reports.OnlineCount | mmain.py:257 | the online count never exceeds the node count |
| Reports.DetailLine | mmain.py:270-275 | a detail line starts with "- " and is longer than the today reward printed at its end; its content is stated by Reports.DetailLineShows |
| Reports.Details | mmain.py:269-275 | one detail line per node, in snapshot order |
| Reports.StatusHeader | mmain.py:259-267 | seven header lines: the title, the time line, then the four aggregate lines, then the details heading |
| Reports.BuildStatusMessage | mmain.py:250-277 | seven header lines, then the detail line of node `i` at line `7 + i`, one per node |
| Reports.BuildStatusMessageLoop | main.py:226-253 | the three summing passes and the appending loop build exactly the status report |
| Reports.StatusLines | mmain.py:259-275 | the header built from the summed aggregates, followed by the appending loop, is the status report |
| Reports.OnlineCountIsConnectedPositions | mmain.py:257 | the online count is the number of positions holding a connected node |
| Reports.AllOnlineIff | main.py:233 | the online count equals the node count exactly when every node is connected |
| Reports.RewardSumsConcat | mmain.py:255-257 | both reward sums and the online count add up over concatenated snapshots |
| Reports.StatusAggregatesReadBack | main.py:235-242 | each aggregate line starts with its label, and the text behind the label reads back as the node count, the online count (at most the node count) and the two reward sums; the today line ends in "\n" |
| Reports.NatAfterLabel | mmain.py:262-263 | a count printed after a label reads back from behind the label |
| Reports.IntAfterLabel | mmain.py:264-265 | an integer printed between a label and a suffix reads back from between them |
| Reports.DetailLineShows | main.py:245-251 | a detail line starts with "- ", the first 20 characters of the key (all of a shorter key), "... " and the state word; the total reward follows " 总奖励:" and reads back exactly; the line ends with the today reward |
| Monitor.Decide | mmain.py:46-58 | no report exactly when there is a stored snapshot, no change and no always-notify; a report sent is the change report exactly when there is a stored snapshot and changes |
| Monitor.Step | mmain.py:42-60 | an unusable fetch (raised, or an empty list) sends nothing and keeps the stored snapshot; a usable one moves to the fetched snapshot |
| Monitor.Decision | main.py:193-213 | the branching code computes exactly the decided report |
| Monitor.FirstRunSendsStatus | mmain.py:54-58 | on the first run the status report is sent, whatever the always-notify flag says |
| Monitor.LaterRunReports | main.py:193-203 | later runs send a report exactly when there are changes or always-notify is set; with changes it is the change report listing them, else the status report |
| Monitor.UnchangedSnapshot | mmain.py:46-49 | an unchanged unique-id snapshot sends the status report with always-notify and nothing without it |
| Monitor.FailedFetchKeepsState | mmain.py:42 | a raising or empty fetch sends nothing and keeps the stored snapshot |
| Monitor.StoredSnapshotStaysNonEmpty | main.py:191-216 | once a snapshot has been committed, the stored snapshot stays non-empty whatever the later fetches and POSTs do |
| Monitor.FirstRunCommitsOnlyWhenPosted | main.py:204-216 | a first run always sends the status report but commits the snapshot only when its POST does not raise, so the first-run report is sent again on each usable poll until a POST succeeds |
| Monitor.Tagged | mmain.py:52 | the sent text starts with the token's name in 【】 and a newline, followed by the report text |
| Monitor.TaggedIsExtraLine | mmain.py:52 | the token tag is one more line in front of the report's lines |
| Monitor.Sent | mmain.py:50-58 | a text is sent exactly when there is a report; without a token name it is the report text, with one it starts with the 【name】 tag |
| Monitor.Committed | mmain.py:53-63 | the stored snapshot becomes the proposed one or stays the old one; it stays old exactly when a report was sent and its POST raised |
| Monitor.RaisedPostKeepsSnapshot | main.py:203-222 | on any run, a report whose POST raises leaves the stored snapshot unchanged |
| Monitor.NodeMonitor.constructor | main.py:9 | the stored snapshot starts empty |
| Monitor.NodeMonitor.Cycle | main.py:186-224 | one pass sends the decided report, commits only when the POST did not raise (a raised POST keeps the stored snapshot), and pauses 5 s after a raised fetch or POST, else `interval` |
| Monitor.TokenMonitor.constructor | mmain.py:44 | a token starts with no stored snapshot |
| Monitor.TokenMonitor.Poll | mmain.py:30-63 | one poll sends the decided report tagged with the token's name, commits only when the POST did not raise, and swallows every failure |
| Monitor.RunCycle | mmain.py:223-248 | a round polls every token once with its own inputs and changes only that token's snapshot; a failure to open the session changes nothing and pauses 5 s, otherwise the pause is `interval` |

## Left out

- `fetch_nodes_data` is not modelled. It covers HTTP through aiohttp, Zstandard decompression, JSON decoding and the statistics it only prints. Its result is the `Option<Snapshot>` parameter. A JSON payload that is not a list, or a node missing a key, is not modelled.
- `send_message_async` is not modelled. It is a webhook POST; whether it raised is the `posted` parameter, and a non-200 reply is only printed.
- `random_delay` and `get_random_user_agent` are left out. They are randomness and sleeping, and they affect neither the reports nor the stored state.
- `datetime.now()` plus the hour offset and `strftime` are not modelled; the formatted timestamp is a string parameter.
- Monitor.RunCycle: the `asyncio.gather` fan-out is modelled as polling the tokens in list order. Each poll touches only its own token's snapshot, so the final state is the same; the order in which the webhook receives messages is not modelled. The sleeps themselves are not modelled, only the pause each round chooses.
- Rewards are modelled as integers. JSON may deliver floats, and float arithmetic and float formatting are not modelled.
- The node's `sessions` list is modelled by its length only, the only thing the core reads from it.
- The configuration files are not part of this model. The always-notify flag, the token list and the interval are parameters. mmain.py's `monitor_single_token` reads the module-wide `ALWAYS_NOTIFY` rather than the `always_notify` argument of `monitor_nodes`. `RunCycle` passes one flag to every token, which matches that.
- Monitor.NodeMonitor.Cycle, Monitor.TokenMonitor.Poll and Monitor.RunCycle: console output (the progress and error prints of `monitor_nodes`, `monitor_single_token` and `random_delay`) is not modelled. The 5-second and `interval` sleeps are not modelled either; the pause is returned as a number.
