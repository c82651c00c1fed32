# velero-watchdog: a Dafny model of the status pipeline

velero-watchdog watches the Velero backups of a Kubernetes cluster. The pipeline has three
stages:

- A producer (`KubernetesStatusRun.run`) polls the cluster once per cycle. It queues a start
  marker, the schedule listing, the last-backup snapshot and an end marker.
- `VeleroStatus` builds those listings. It resolves the raw backup listing to the last backup
  of every schedule, keeps every backup without a schedule, and computes the namespaces that
  no schedule covers.
- A consumer (`VeleroChecker`) compares each snapshot with the one it saw before. It renders
  a change or status report and puts it on the dispatcher queue. Between a start and an end
  marker it gathers the reports into one message, and it sends an alive message when nothing
  was sent for a configured number of hours.

The files:

- `wrappers.dfy`: `Option`.
- `text.dfy`: the Python string operations the code relies on: `strip`, `find`, `int()` on a
  string, `str()` of an int, string `<`, `lower()`, `str()` of a list.
- `dicts.dfy`: insertion-ordered dictionaries as sequences of pairs with distinct keys, with
  `d[k] = v`, `del d[k]` and the mapping that plain-dict `==` compares.
- `expiry.dfy`: `_extract_days_from_str`, both as written and as intended (see Findings).
- `velero_status.dfy` (module `Status`): schedule extraction, last-backup resolution and
  namespace coverage. The Kubernetes listings are inputs.
- `messages.dfy`: the dictionaries the producer puts on the status queue.
- `velero_checker.dfy` (module `Checker`):
  - every handler as a function from the old state `Engine` to the new one;
  - the class `VeleroChecker`, whose fields hold the same state and whose methods are proved
    to perform those functions;
  - the outbound queue is the `seq<string>` field `outbound`. It only grows.
- `kubernetes_status_run.dfy` (module `Scheduler`):
  - one loop iteration as the function `StepOf` on the counters `seconds_waiting`, `index` and
    `loop`;
  - the class `KubernetesStatusRun`, whose `Step` and `Run` methods are proved against it.

Inputs of the model:

- The clock is an integer `now`, in seconds, read once per handled item.
- The Kubernetes listings are sequences of records.
- The producer's fetch results are parameters, one per iteration.
- Wherever the Python code raises, the model returns `None` (or `Raises`). What the exception
  decorators then return is not modelled.

## Model

| member | source | states |
|---|---|---|
| Expiry.ExtractDays | src/libs/velero_checker.py:173-185 | A text without 'd' gives no days; a result carrying days carries a positive count |
| Expiry.DayCountRoundTrip | src/libs/velero_status.py:113-114 | Parsing the `str(days) + 'd'` text of the status code gives back the count when it is positive, and nothing otherwise; the as-written parse agrees on such texts |
| Expiry.ExtractDaysIgnoresPadding | src/libs/velero_checker.py:177-180 | The intended parse depends on the stripped text only |
| Expiry.AsWrittenAgrees | src/libs/velero_checker.py:173-185 | Without leading white space the parse as written and as intended agree |
| Expiry.FiveDays | src/libs/velero_checker.py:177-183 | "5d" gives 5 |
| Expiry.NegativeDays | src/libs/velero_checker.py:182-185 | "-3d", a count that is not positive, gives no days |
| Expiry.NotAvailableHasNoDays | src/libs/velero_checker.py:179-185 | "N/A" gives no days |
| Expiry.InProgressHasNoDays | src/libs/velero_checker.py:179-185 | "in progress" gives no days |
| Expiry.LeadingSpaceCounterexample | src/libs/velero_checker.py:177-180 | " 5d" raises as written, where the intended parse gives 5 |
| Status.ExtractResources | src/libs/velero_status.py:195-210 | Fails exactly when the name is missing or the spec lacks `schedule` or `template`; a schedule without spec gives empty namespaces and resources, no fs-backup flag and an empty cron; otherwise the fields are read with their defaults |
| Status.GetSchedules | src/libs/velero_status.py:43-67 | The loop builds exactly the fold of the listing into a dictionary |
| Status.SchedulesOfFails | src/libs/velero_status.py:55-60 | Once a prefix of the listing fails, the whole listing fails |
| Status.SchedulesOfSucceeds | src/libs/velero_status.py:55-60 | The listing yields a dictionary exactly when every schedule in it can be read |
| Status.SchedulesOfKeys | src/libs/velero_status.py:55-66 | The dictionary's keys are exactly the schedule names of the listing |
| Status.SchedulesOfLastWins | src/libs/velero_status.py:61-66 | Each key holds the record of the last schedule of that name in the listing |
| Status.NamespacesOfCovers | src/libs/velero_status.py:158-163 | A namespace is in the concatenation exactly when some schedule includes it |
| Status.ScheduledNamespaces | src/libs/velero_status.py:158-163 | The loop accumulates the concatenation of every schedule's `included_namespaces`, in dictionary order |
| Status.InsertSorted | src/libs/velero_status.py:170 | Inserting an absent name keeps the list ascending, adds one element, and adds exactly that name |
| Status.SortedUnique | src/libs/velero_status.py:169-170 | Two ascending lists with the same elements are equal, so the sorted difference is determined |
| Status.UnscheduledNamespaces | src/libs/velero_status.py:169-171 | `difference` is strictly ascending and holds exactly the namespaces not included; `counter` is its length, `counter_all` the number of namespaces, and `counter <= counter_all` |
| Status.CoverageUnique | src/libs/velero_status.py:165-171 | Two coverages of the same listings are equal |
| Status.Unscheduled | src/libs/velero_status.py:165-171 | Fails exactly when the schedule fetch fails; otherwise the result is the coverage of the namespaces by all the schedules' namespaces |
| Status.EntryOf | src/libs/velero_status.py:96-124 | The record of a backup: fails exactly when the labels map is missing, there is no status, or a phase comes without a parseable expiration; otherwise name, schedule, phase, errors, warnings, expiry and completion time as the code reads them |
| Status.EntryExpiryParses | src/libs/velero_status.py:110-119 | Every expiry text a record can carry is read by the day parse without raising |
| Status.SameScheduleIndex | src/libs/velero_status.py:131-133 | The position of the first stored backup of the schedule, or -1 exactly when there is none |
| Status.StoreBackup | src/libs/velero_status.py:126-153 | Looking up the stored backup of the schedule, then deleting and inserting, performs `Place` |
| Status.ResolveLastBackups | src/libs/velero_status.py:82-155 | The loop computes the resolved view, and the view holds at most one entry per schedule |
| Status.ResolvedFails | src/libs/velero_status.py:95-153 | Once a prefix raises, the whole listing raises |
| Status.PlaceKeepsOne | src/libs/velero_status.py:137-153 | Placing a backup never gives a schedule a second entry |
| Status.RetainKeepsInv | src/libs/velero_status.py:95-153 | One turn of the loop keeps every property of the view: keyed by name, entries from the listing, one per schedule, the greatest name per schedule, every schedule covered, every unscheduled backup kept |
| Status.ResolvedInv | src/libs/velero_status.py:92-155 | For a listing with distinct names, the final view has all those properties |
| Status.LatestPerSchedule | src/libs/velero_status.py:137-143 | For each schedule that has a backup with a status, the view retains an entry for it, and every such entry is one of that schedule's backups with the lexicographically greatest name (Kubernetes names being distinct) |
| Status.ResolvedOnePerSchedule | src/libs/velero_status.py:129-144 | The view holds at most one entry per schedule, for any listing |
| Status.UnscheduledKept | src/libs/velero_status.py:96-99 | Every backup without a schedule label that has a status is retained under its own name with its own record |
| Status.EmptyStatusNotRetained | src/libs/velero_status.py:101 | A backup whose status is `{}` never appears in the view |
| Status.SupersedeMovesToEnd | src/libs/velero_status.py:142-144 | A backup that supersedes the stored one of its schedule deletes that key and is inserted at the end |
| Status.NewEntryAppends | src/libs/velero_status.py:137-144 | An unscheduled backup, or the first one of its schedule, is appended at the end |
| Status.ResolvedFailsIff | src/libs/velero_status.py:95-124 | The resolution raises exactly when some backup of the listing cannot be read |
| Status.LastBackupStatus | src/libs/velero_status.py:70-79 | Succeeds exactly when both the resolution and the schedule fetch do; the result is the resolved view together with the coverage of the namespaces |
| Checker.Send | src/libs/velero_checker.py:66-84 | An empty message changes nothing. In immediate mode exactly that message is queued and `last_send` is set. In aggregation mode nothing is queued and the message is appended to the buffer, after the 20-dash divider only when the buffer is non-empty |
| Checker.Summary | src/libs/velero_checker.py:87-101 | The buffer and the mode are always cleared. Only a buffer longer than 10 characters is queued, inside the start and end banners, setting `last_send`. Every other field (stored snapshots, cluster name, force and config flags) is unchanged |
| Checker.StartThenEndSilent | src/libs/velero_checker.py:121-126 | A start marker directly followed by the end marker queues nothing and leaves an empty buffer |
| Checker.OnlyIn | src/libs/velero_checker.py:326-327 | Exactly the keys of one dictionary that the other lacks |
| Checker.Differing | src/libs/velero_checker.py:330-333 | Exactly the pairs whose key the other dictionary holds with another value, with distinct keys |
| Checker.FindDictDifference | src/libs/velero_checker.py:324-341 | `removed` holds exactly the keys only in the old dictionary and `added` those only in the new one, and the two are disjoint; `old_values` and `new_values` have the same keys, exactly the common keys whose values differ, each with its own side's value |
| Checker.DiffEmptyIffEqual | src/libs/velero_checker.py:324-349 | The difference is empty in all three parts exactly when the two dictionaries are equal as Python compares them |
| Checker.FieldChangesNonEmpty | src/libs/velero_checker.py:366-370 | Two different schedule records show at least one changed field |
| Checker.ScheduleMessageEmptyIff | src/libs/velero_checker.py:350-370 | The message is empty exactly when nothing is removed, nothing changed, and nothing added to a non-empty old snapshot |
| Checker.FirstScheduleSilent | src/libs/velero_checker.py:359 | From an empty stored snapshot the message is empty, so it is not sent |
| Checker.ScheduleChangeReported | src/libs/velero_checker.py:350-372 | Any change to a non-empty stored snapshot yields a non-empty message |
| Checker.BuildScheduleMessage | src/libs/velero_checker.py:350-370 | The loops build exactly the schedule message |
| Checker.AppendLines | src/libs/velero_checker.py:354-362 | A loop that appends `lead + x` for each `x` appends exactly `Each(lead, xs)` |
| Checker.AppendUpdates | src/libs/velero_checker.py:364-370 | The nested loop over changed schedules and fields appends exactly the update section |
| Checker.ScheduleReportIdempotent | src/libs/velero_checker.py:347-374 | Reporting the same schedule snapshot twice is reporting it once: the second time sends nothing and changes nothing |
| Checker.ErrorText | src/libs/velero_checker.py:165-170 | The rendering `'[]'` (and the empty text) means no message; any other text is kept as it is |
| Checker.ExpiryNoteMeaning | src/libs/velero_checker.py:234-246 | A non-empty expiry is "not valid" exactly when the parse gives no days, "warning" exactly when it gives fewer days than the threshold, and never both |
| Checker.TallySucceedsIff | src/libs/velero_checker.py:219-278 | The loop completes exactly when no non-empty expiry makes the day parse raise |
| Checker.TallyCounts | src/libs/velero_checker.py:199-278 | For any group (a case-insensitive phase, errors, warnings, expiry warning, not valid), the tally's counter counts exactly the backups of that group, and for a group with a name list the list holds exactly those backups' names in order |
| Checker.TallyPhaseFields | src/libs/velero_checker.py:200-261 | `completed` is the number of completed backups, and `in_progress`, `failed` and `partially_failed` list exactly the backups in those phases |
| Checker.TallyFlagFields | src/libs/velero_checker.py:204-275 | The error and warning name lists list exactly the backups with a non-empty error or warning text |
| Checker.TallyExpiryFields | src/libs/velero_checker.py:206-246 | The expiry list lists exactly the backups whose days fall below the warning threshold, and the not-valid counter counts exactly the backups whose expiry gives no days |
| Checker.AccountStep | src/libs/velero_checker.py:225-278 | One turn of the loop adds the backup's name to a group, and increases its counter, exactly when the backup belongs to that group |
| Checker.SelectMembers | src/libs/velero_checker.py:219-275 | A name is listed in a group exactly when some backup of that group carries it |
| Checker.PhaseBound | src/libs/velero_checker.py:249-261 | The four phase groups are exclusive: completed + in progress + failed + partially failed <= total |
| Checker.ExpiryBound | src/libs/velero_checker.py:237-244 | No backup is both "not valid" and "warning", so the two counts together fit the total |
| Checker.TallyBounds | src/libs/velero_checker.py:199-278 | The four phase counters together, the error count, the warning count, and the warning-period and not-valid counts together are each at most `len(backups)` |
| Checker.TallyBackups | src/libs/velero_checker.py:219-278 | The loop computes the tally, stopping with no result at the first expiry that raises |
| Checker.CountBackup | src/libs/velero_checker.py:225-278 | One turn adds the backup to exactly its groups and appends its text block |
| Checker.ResolvedExpiriesParse | src/libs/velero_checker.py:237 | Every record of a resolved view has an expiry text that the day parse reads without raising |
| Status.EntryExpiryAsWritten | src/libs/velero_status.py:110-119 | On every expiry text a backup record can carry, the day parse as written gives the same result as the intended parse |
| Checker.ResolvedExpiriesAsWritten | src/libs/velero_checker.py:172-185 | On every record of a resolved view, the checker's day parse as written gives what the intended parse gives, so every expiry note of the report is the same under both |
| Checker.ResolvedTallies | src/libs/velero_checker.py:219-278 | So the report over a resolved view is always built |
| Checker.ReportLong | src/libs/velero_checker.py:312-315 | The report is always longer than 10 characters, so the length guard always passes |
| Checker.BackupReportIdempotent | src/libs/velero_checker.py:192-317 | Reporting the same backup data twice is reporting it once |
| Checker.BackupReportSends | src/libs/velero_checker.py:280-317 | New data in immediate mode queues exactly one report (header, then body), sets `last_send`, stores the data and leaves the schedules and buffer alone |
| Checker.RowsList | src/libs/velero_checker.py:306-307 | The namespace listing has a `\t{ns}\n` row for each namespace it is given |
| Checker.UncoveredListed | src/libs/velero_checker.py:304-312 | When some namespace is uncovered, the report body is the listing for that namespace, whatever the backups are |
| Checker.TallyDetails | src/libs/velero_checker.py:225-278 | The accumulated details are the blocks of all the backups, in view order |
| Checker.BlocksList | src/libs/velero_checker.py:278 | The details contain every backup's own block |
| Checker.BackupsDetailed | src/libs/velero_checker.py:280-312 | When every namespace is covered, the report contains the block of every backup |
| Checker.ClusterNameConfigures | src/libs/velero_checker.py:387-424 | Since `send_config` is never set, a cluster name queues exactly the configuration message with the cluster-name subtitle and stores the name |
| Checker.DispatchGrows | src/libs/velero_checker.py:111-127 | Every item except the two markers queues at most one message, nothing in aggregation mode, and keeps the mode and the buffer invariant |
| Checker.UnpackGrows | src/libs/velero_checker.py:104-144 | Handling an item only appends to the outbound queue, and appends at most two messages (a report and an alive message) |
| Checker.UnpackKeepsInvariant | src/libs/velero_checker.py:104-144 | Outside aggregation mode the buffer stays empty, and nothing sets `send_config` |
| Checker.AggregationBuffers | src/libs/velero_checker.py:104-144 | In aggregation mode every item except the end marker queues nothing and keeps the mode |
| Checker.HeartbeatEffect | src/libs/velero_checker.py:133-144 | When the alive message is not due, nothing changes. When it is due, exactly one alive message goes through `Send` (queued in immediate mode, appended to the buffer in aggregation mode) and the force flag drops |
| Checker.HeartbeatDisabled | src/libs/velero_checker.py:133 | An interval of zero hours or fewer turns the alive message off |
| Checker.NoHeartbeatAfterSend | src/libs/velero_checker.py:74-136 | A message queued at the same instant postpones the alive message |
| Checker.HeartbeatRepeatsWhileBuffering | src/libs/velero_checker.py:77-136 | In aggregation mode a buffered alive message does not move `last_send`, so it is due again on the next item |
| Checker.DrainStopsAtSentinel | src/libs/velero_checker.py:436-442 | Nothing after the `None` sentinel is read |
| Checker.DrainKeepsInvariant | src/libs/velero_checker.py:436-448 | Over a whole run the outbound queue only grows, the buffer invariant holds and `send_config` stays as it was |
| Checker.VeleroChecker.constructor | src/libs/velero_checker.py:14-50 | The fields start as the initial state at the given time |
| Checker.VeleroChecker.SendToDispatcher | src/libs/velero_checker.py:66-84 | The new state is `Send` of the old one |
| Checker.VeleroChecker.SendToDispatcherSummary | src/libs/velero_checker.py:87-101 | The new state is `Summary` of the old one |
| Checker.VeleroChecker.ProcessScheduleReport | src/libs/velero_checker.py:343-378 | The new state is `ScheduleReport` of the old one |
| Checker.VeleroChecker.ProcessLastBackupReport | src/libs/velero_checker.py:187-321 | The new state is `BackupReport` of the old one |
| Checker.VeleroChecker.StoreBackupReport | src/libs/velero_checker.py:314-317 | A report longer than 10 characters is sent, and the data is stored as the last snapshot seen |
| Checker.VeleroChecker.SendActiveConfiguration | src/libs/velero_checker.py:400-424 | The new state is the old one after sending the configuration text |
| Checker.VeleroChecker.ProcessClusterName | src/libs/velero_checker.py:380-398 | The new state is `ClusterNameReport` of the old one |
| Checker.VeleroChecker.DispatchData | src/libs/velero_checker.py:111-128 | The new state is the key dispatch of the old one |
| Checker.VeleroChecker.SendAliveMessage | src/libs/velero_checker.py:133-144 | The new state is `Heartbeat` of the old one |
| Checker.VeleroChecker.UnpackData | src/libs/velero_checker.py:104-147 | The new state is `Unpack` of the old one |
| Checker.VeleroChecker.Run | src/libs/velero_checker.py:427-451 | The new state is the run of the old one over the items up to the sentinel |
| Scheduler.Wrap | src/libs/kubernetes_status_run.py:75-78 | The loop counter advances by one below the limit, wraps to 1 at the limit, and stays within 1..500000 |
| Scheduler.StepInRange | src/libs/kubernetes_status_run.py:74-114 | `index` stays in 0..4 and `loop` in 0..500000 |
| Scheduler.StepLoop | src/libs/kubernetes_status_run.py:73-78 | `loop` changes exactly on an active iteration at index 0, and then advances or wraps; once it is at least 1 it stays within 1..500000 |
| Scheduler.StepMessage | src/libs/kubernetes_status_run.py:83-111 | An iteration queues a message exactly when it is active at one of the four requests and that request's flag is on; a disabled flag never yields its message |
| Scheduler.StepCounters | src/libs/kubernetes_status_run.py:104-121 | Requests 0-3 advance `index` by 1 whether or not they produced a message; the default case resets both counters; every other iteration adds exactly 1 to `seconds_waiting` |
| Scheduler.StepsAppend | src/libs/kubernetes_status_run.py:71-121 | Two stretches of iterations run one after the other |
| Scheduler.ActiveCycle | src/libs/kubernetes_status_run.py:83-114 | The five active iterations of a cycle queue start, schedules, backups and end in that order (each only if its flag is on) and reset the counters, the loop counter advanced |
| Scheduler.Waiting | src/libs/kubernetes_status_run.py:73-121 | While `seconds_waiting` is at most `cycle_seconds` nothing is queued and only `seconds_waiting` grows |
| Scheduler.Period | src/libs/kubernetes_status_run.py:71-121 | A whole period (five active and `cycle_seconds` waiting iterations) queues the cycle's messages and comes back to its start state, the loop counter advanced |
| Scheduler.KubernetesStatusRun.constructor | src/libs/kubernetes_status_run.py:31-32 | The loop counter starts at 0 and nothing is queued |
| Scheduler.KubernetesStatusRun.Start | src/libs/kubernetes_status_run.py:60-69 | `seconds_waiting` starts at `cycle_seconds + 1`, `index` at 0, and the cluster-name message is queued |
| Scheduler.KubernetesStatusRun.Step | src/libs/kubernetes_status_run.py:72-121 | One iteration moves the counters as `StepOf` says and queues its message, if any |
| Scheduler.KubernetesStatusRun.Run | src/libs/kubernetes_status_run.py:54-121 | The cluster-name message first, then the counters and messages of the iterations |
| Scheduler.ClusterNameFirst | src/libs/kubernetes_status_run.py:66-69 | What `run` queues carries a cluster name exactly once, as its first message |
| Scheduler.StepsHaveNoCluster | src/libs/kubernetes_status_run.py:83-111 | No iteration queues a cluster-name message |
| Scheduler.FirstStepStarts | src/libs/kubernetes_status_run.py:60-73 | With a non-negative cycle the very first iteration is active and queues the start marker |

## Left out

- The Kubernetes client calls (configuration loading, `list_namespace`,
  `list_namespaced_custom_object`) are foreign I/O. Their results are inputs.
- In the producer, a fetch that raises inside the `handle_exceptions_method` decorator is not
  modelled, because the decorator's source, and so what it returns, is not available. The
  fetch results are successful values.
- Scheduler.KubernetesStatusRun.Step: the `except` at kubernetes_status_run.py:123-124 is not
  modelled. Without raising fetches nothing in an iteration raises, so it is unreachable in the
  model. If it were reached, it would skip that iteration's `seconds_waiting += 1`.
- Date arithmetic (`strptime` minus `now`) and the wall clock are not modelled. The day count
  to expiry is an input of each raw backup, and `now` is a parameter.
- Logging, `asyncio.sleep` and the `seconds_waiting % 30` log line are left out, because they
  change no state. Each sleep is one step.
- Checker.Unpack: the model assumes that the logging call at velero_checker.py:109,
  `debug_if("__unpack_data")`, returns normally. That call passes one argument, where every other
  `debug_if` call passes a flag and then a message. It also runs before the `try` at line 110,
  so the `except` at line 146 would not catch a raise. The print helper's source is not
  available, so whether the call raises, and with it whether the consumer handles any item at
  all, is not settled here.
- `asyncio.Queue` is a sequence. The producer and the consumer run separately, so their
  interleaving is not modelled.
- The `while True` loops are modelled as runs over finite sequences of iterations and items.
- `seconds_waiting` and `index` are locals of `run` in the source. They are fields of
  `KubernetesStatusRun` here, so that one iteration can be a method.
- Checker.FindDictDifference: `removed` and `added` come from `list(set(...))` in the source,
  whose order is unspecified. The model lists them in dictionary order. The contract states
  membership only, so it holds for any order.
- The Python `int()` of a string is modelled for an optional sign and ASCII digits, with
  surrounding white space. Underscores and non-ASCII digits are not modelled.
- `lower()` is modelled for ASCII letters only.
- `str()` of a list is modelled with single-quoted items and no escaping. Escaping of quotes
  inside names is not modelled.
- `send_active_configuration` with `k8s_config` None ("Error init config class") is left out,
  because the constructor always sets a configuration.
- The `except` at velero_checker.py:146-147 is left out. Items are typed in the model, so
  nothing in `__unpack_data__` raises outside the two processors.
- Checker.ExpiryNoteOf: the report classifies each expiry with the intended day parse
  (Expiry.ExtractDays), not with the parse as written, which raises on a text with leading
  white space. The lemma Checker.ResolvedExpiriesAsWritten shows that both give the same
  result on every record of a resolved view. So the two differ only on expiry texts that
  resolution never produces.
- Checker.BackupReport: a raising day parse is modelled as abandoning the report, with no
  send and no state change. This assumes the exception leaves the `handle_exceptions_method`
  decorator of `_extract_days_from_str` (velero_checker.py:172) and reaches the processor's
  own `except` (velero_checker.py:319-321). The decorator's source is not available. If the
  decorator returned None instead, the backup would be counted as not valid and the report
  would still be sent. The lemma Checker.ResolvedTallies shows that no resolved view triggers
  the raise, so the assumption does not matter on the system's own data.
- The source reads `time.time()` separately at velero_checker.py:74, 96 and 134. The model
  uses one `now` for everything done while handling one item, and
  Checker.NoHeartbeatAfterSend ("at the same instant") relies on that. The separate readings
  differ only by the time one item takes to handle, which the model does not track. Against an
  alive interval of whole hours, that difference changes whether the alive message is due only
  when `last_send` plus the interval falls within that short time.
- The alive-hours clamp to 0..100 and the other configuration loading (utils/config.py) are
  left out. The interval is any integer, and an interval of zero or less disables the alive
  message as in the source.
- `int(self.alive_message_seconds / 3600)` goes through a float in the source. The model uses
  the integer hours directly, which is the same for every hour count the configuration allows.
- The report texts are modelled as the source builds them. The properties stated about them
  are structural (sections, rows, banners, divider, lengths).
- `main.py` (process start-up, queue construction, the restart loop) is not part of this model.

## Findings

| source | as written | input that shows it | evidently intended | confidence | as-written member | corrected member |
|---|---|---|---|---|---|---|
| src/libs/velero_checker.py:177-180 (also 154-157 and src/libs/velero_status.py:184-187) | `index = s.find('d')` on the unstripped text, then `int(s.strip()[:index])` on the stripped text | `" 5d"`: the index is 2, the slice of `"5d"` is `"5d"`, and `int` raises | The count before the first 'd' of the stripped text: 5 | not executed | Expiry.ExtractDaysAsWritten / Expiry.LeadingSpaceCounterexample | Expiry.ExtractDays / Expiry.ExtractDaysIgnoresPadding |
