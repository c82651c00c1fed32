/**
 * `VeleroChecker`: the consumer of the status queue. It compares each schedule and backup
 * snapshot with the one it saw before, builds the report text, and sends it to the dispatcher
 * queue, either at once or gathered between a start and an end marker into one message. It
 * also sends an alive message when nothing was sent for a configured number of hours.
 *
 * The whole state is the value `Engine`; every operation is a function from the old state to
 * the new one, and the class `VeleroChecker` keeps the same state in fields. The clock is the
 * parameter `now` (seconds), one reading per item handled.
 */
module Checker {
  import opened Wrappers
  import opened Text
  import opened Dicts
  import opened Expiry
  import opened Status
  import opened Messages

  // ---------------------------------------------------------------------------------------
  // State
  // ---------------------------------------------------------------------------------------

  /**
   * The configuration the checker reads: the alive interval in hours (the constructor turns
   * it into seconds), the two enable flags and the expiry warning threshold in days.
   */
  datatype Settings = Settings(
    aliveHours: int,
    backupEnable: bool,
    scheduleEnable: bool,
    expiresDaysWarning: int)

  /** `alive_message_seconds` */
  function AliveSeconds(st: Settings): int
  {
    st.aliveHours * 3600
  }

  /**
   * The checker's fields. `oldBackup` is None while it still holds the initial `{}`, which no
   * snapshot equals; `outbound` is what has been put on the dispatcher queue, oldest first.
   */
  datatype Engine = Engine(
    oldSchedules: ScheduleDict,
    oldBackup: Option<BackupSnapshot>,
    lastSend: int,
    clusterName: Option<string>,
    forceAlive: bool,
    sendConfig: bool,
    finalMessage: string,
    uniqueMessage: bool,
    outbound: seq<string>)

  /** The state right after the constructor ran at time `now`. */
  function Initial(now: int): Engine
  {
    Engine([], None, now, Some(""), false, false, "", false, [])
  }

  /** Outside aggregation mode the buffer is empty. */
  predicate BufferInvariant(e: Engine)
  {
    !e.uniqueMessage ==> e.finalMessage == ""
  }

  // ---------------------------------------------------------------------------------------
  // Sending
  // ---------------------------------------------------------------------------------------

  /** The separator between two messages gathered in aggregation mode. */
  const Divider: string := "\n--------------------\n"

  /**
   * `send_to_dispatcher`: an empty message is dropped; otherwise it is queued at once (and
   * `last_send` set), or, in aggregation mode, appended to the buffer after a divider when
   * the buffer already holds something.
   */
  function Send(e: Engine, message: string, now: int): (r: Engine)
    ensures |message| == 0 ==> r == e
    ensures |message| > 0 && !e.uniqueMessage ==>
              r == e.(lastSend := now, outbound := e.outbound + [message])
    ensures |message| > 0 && e.uniqueMessage ==>
              && r == e.(finalMessage := r.finalMessage)
              && r.finalMessage == (if |e.finalMessage| > 0 then e.finalMessage + Divider else "") + message
  {
    if |message| == 0 then e
    else if !e.uniqueMessage then e.(lastSend := now, outbound := e.outbound + [message])
    else if |e.finalMessage| > 0 then e.(finalMessage := e.finalMessage + Divider + message)
    else e.(finalMessage := message)
  }

  /** The aggregated message as it is queued. */
  function SummaryText(buffer: string): string
  {
    "Start report\n" + buffer + "\nEnd report"
  }

  /**
   * `send_to_dispatcher_summary`: a buffer longer than 10 characters is queued inside the
   * report banners; the buffer and aggregation mode are cleared in every case.
   */
  function Summary(e: Engine, now: int): (r: Engine)
    ensures r.finalMessage == "" && !r.uniqueMessage
    ensures r == e.(finalMessage := "", uniqueMessage := false, outbound := r.outbound, lastSend := r.lastSend)
    ensures |e.finalMessage| > 10 ==>
              r.outbound == e.outbound + [SummaryText(e.finalMessage)] && r.lastSend == now
    ensures |e.finalMessage| <= 10 ==> r.outbound == e.outbound && r.lastSend == e.lastSend
  {
    var e1 := if |e.finalMessage| > 10
              then e.(lastSend := now, outbound := e.outbound + [SummaryText(e.finalMessage)])
              else e;
    e1.(finalMessage := "", uniqueMessage := false)
  }

  /** The start marker: aggregation mode on, buffer emptied. */
  function StartMarker(e: Engine): Engine
  {
    e.(uniqueMessage := true, finalMessage := "")
  }

  /** The alive message. */
  function AliveText(e: Engine, st: Settings): string
  {
    "Cluster: " + OptionText(e.clusterName)
    + "\nvelero-watchdog is running."
    + "\nThis is an alive message"
    + "\nNo warning/errors were triggered in the last " + IntText(st.aliveHours) + " hours "
  }

  /** Whether the alive message is due at `now`. */
  predicate AliveDue(e: Engine, st: Settings, now: int)
  {
    AliveSeconds(st) > 0 && (now - e.lastSend > AliveSeconds(st) || e.forceAlive)
  }

  /** velero_checker.py lines 133-144: the alive message goes through `Send` when due, and the force flag drops. */
  function Heartbeat(e: Engine, st: Settings, now: int): Engine
  {
    if AliveDue(e, st, now) then Send(e, AliveText(e, st), now).(forceAlive := false) else e
  }

  // ---------------------------------------------------------------------------------------
  // Schedule snapshots
  // ---------------------------------------------------------------------------------------

  /** What `find_dict_difference` returns. */
  datatype DictDiff = DictDiff(
    removed: seq<string>,
    added: seq<string>,
    oldValues: ScheduleDict,
    newValues: ScheduleDict)

  /** The keys of `d1` that `d2` lacks, in `d1`'s order. */
  function OnlyIn(d1: seq<(string, ScheduleRecord)>, d2: seq<(string, ScheduleRecord)>): (r: seq<string>)
    ensures forall k :: k in r <==> k in Keys(d1) && k !in Keys(d2)
  {
    if |d1| == 0 then []
    else
      assert Keys(d1) == [d1[0].0] + Keys(d1[1..]);
      (if d1[0].0 !in Keys(d2) then [d1[0].0] else []) + OnlyIn(d1[1..], d2)
  }

  /** The pairs of `d1` whose key `d2` holds with another value, in `d1`'s order. */
  function Differing(d1: seq<(string, ScheduleRecord)>, d2: ScheduleDict): (r: seq<(string, ScheduleRecord)>)
    ensures forall p :: p in r ==> p in d1 && p.0 in Keys(d2) && Get(d2, p.0) != p.1
    ensures forall p :: p in d1 && p.0 in Keys(d2) && Get(d2, p.0) != p.1 ==> p in r
    ensures UniqueKeys(d1) ==> UniqueKeys(r)
  {
    if |d1| == 0 then []
    else
      var rest := Differing(d1[1..], d2);
      var head := d1[0];
      TailUnique(d1);
      if head.0 in Keys(d2) && Get(d2, head.0) != head.1 then
        assert UniqueKeys(d1) ==> UniqueKeys([head] + rest) by {
          if UniqueKeys(d1) { ConsUnique(head, rest); }
        }
        [head] + rest
      else
        rest
  }

  /** The same keys with the values `d2` holds for them. */
  function Counterparts(ks: ScheduleDict, d2: ScheduleDict): (r: ScheduleDict)
    requires forall p :: p in ks ==> p.0 in Keys(d2)
    ensures |r| == |ks| && Keys(r) == Keys(ks)
    ensures forall i :: 0 <= i < |r| ==> r[i] == (ks[i].0, Get(d2, ks[i].0))
  {
    var r := seq(|ks|, i requires 0 <= i < |ks| => (ks[i].0, Get(d2, ks[i].0)));
    assert Keys(r) == Keys(ks);
    r
  }

  /**
   * `find_dict_difference(dict1, dict2)`: the keys only in the first, the keys only in the
   * second, and the common keys whose values differ, each with its own side's value.
   */
  function FindDictDifference(d1: ScheduleDict, d2: ScheduleDict): (r: DictDiff)
    ensures forall k :: k in r.removed <==> k in Keys(d1) && k !in Keys(d2)
    ensures forall k :: k in r.added <==> k in Keys(d2) && k !in Keys(d1)
    ensures forall k :: k in r.removed ==> k !in r.added
    ensures Keys(r.oldValues) == Keys(r.newValues)
    ensures forall k :: k in Keys(r.oldValues) <==>
              k in Keys(d1) && k in Keys(d2) && Get(d1, k) != Get(d2, k)
    ensures forall p :: p in r.oldValues ==> p in d1
    ensures forall p :: p in r.newValues ==> p in d2
  {
    var ov := Differing(d1, d2);
    var nv := Counterparts(ov, d2);
    forall k | k in Keys(ov) ensures k in Keys(d1) && k in Keys(d2) && Get(d1, k) != Get(d2, k) {
      KeyPresent(ov, k);
      var p :| p in ov && p.0 == k;
      GetPair(d1, p);
    }
    forall k | k in Keys(d1) && k in Keys(d2) && Get(d1, k) != Get(d2, k) ensures k in Keys(ov) {
      var p := (k, Get(d1, k));
      assert d1[IndexOf(d1, k)] == p;
      KeyPresent(ov, k);
    }
    forall p | p in nv ensures p in d2 {
      var i :| 0 <= i < |nv| && nv[i] == p;
      assert ov[i] in ov;
      assert d2[IndexOf(d2, p.0)] == p;
    }
    DictDiff(OnlyIn(d1, d2), OnlyIn(d2, d1), ov, nv)
  }

  /** Python's `==` on two schedule dicts: the same keys with equal values. */
  predicate SameSchedules(d1: ScheduleDict, d2: ScheduleDict)
  {
    ToMap(d1) == ToMap(d2)
  }

  /** The difference is empty exactly when the two dictionaries are equal. */
  lemma DiffEmptyIffEqual(d1: ScheduleDict, d2: ScheduleDict)
    ensures var diff := FindDictDifference(d1, d2);
            (|diff.removed| == 0 && |diff.added| == 0 && |diff.oldValues| == 0) <==> SameSchedules(d1, d2)
  {
    var diff := FindDictDifference(d1, d2);
    if |diff.removed| == 0 && |diff.added| == 0 && |diff.oldValues| == 0 {
      assert forall k :: k in Keys(d1) <==> k in Keys(d2);
      assert Keys(diff.oldValues) == [];
      forall k | k in Keys(d1) ensures Get(d1, k) == Get(d2, k) {
        assert k !in Keys(diff.oldValues);
      }
    }
    if SameSchedules(d1, d2) {
      assert forall k :: k in Keys(d1) <==> k in Keys(d2) by {
        forall k ensures k in Keys(d1) <==> k in Keys(d2) {
          assert k in Keys(d1) <==> k in ToMap(d1);
          assert k in Keys(d2) <==> k in ToMap(d2);
        }
      }
      forall k | k in Keys(d1) ensures Get(d1, k) == Get(d2, k) {
        assert ToMap(d1)[k] == ToMap(d2)[k];
      }
      NoMemberEmpty(diff.removed);
      NoMemberEmpty(diff.added);
      NoMemberEmpty(Keys(diff.oldValues));
    }
  }

  /** `lead + x` for each `x` in turn, as the report loops append them. */
  function Each(lead: string, xs: seq<string>): string
    decreases |xs|
  {
    if |xs| == 0 then "" else Each(lead, xs[..|xs| - 1]) + lead + xs[|xs| - 1]
  }

  /** `str(value)` of the `default_volumes_to_fs_backup` field: the `[]` default or a bool. */
  function FsBackupText(v: Option<bool>): string
  {
    match v
    case None => "[]"
    case Some(b) => BoolText(b)
  }

  /** One field of a changed schedule: its key, the text of both values, and whether they differ. */
  datatype FieldDiff = FieldDiff(field: string, before: string, after: string, differs: bool)

  /** The fields of the two records, in the order the record is built. */
  function FieldDiffs(o: ScheduleRecord, n: ScheduleRecord): seq<FieldDiff>
  {
    [ FieldDiff("included_namespaces", ListText(o.includedNamespaces), ListText(n.includedNamespaces),
                o.includedNamespaces != n.includedNamespaces),
      FieldDiff("included_resources", ListText(o.includedResources), ListText(n.includedResources),
                o.includedResources != n.includedResources),
      FieldDiff("default_volumes_to_fs_backup", FsBackupText(o.defaultVolumesToFsBackup),
                FsBackupText(n.defaultVolumesToFsBackup),
                o.defaultVolumesToFsBackup != n.defaultVolumesToFsBackup),
      FieldDiff("cron_time", o.cronTime, n.cronTime, o.cronTime != n.cronTime) ]
  }

  /** `f"{field}: {old} -> {new}"` when the two values differ, nothing otherwise. */
  function FieldChange(f: FieldDiff): string
  {
    if f.differs then f.field + ": " + f.before + " -> " + f.after else ""
  }

  /** The changes of the fields `fs`, in order. */
  function ChangesText(fs: seq<FieldDiff>): string
    decreases |fs|
  {
    if |fs| == 0 then "" else ChangesText(fs[..|fs| - 1]) + FieldChange(fs[|fs| - 1])
  }

  /** The changed fields of one schedule. */
  function FieldChanges(o: ScheduleRecord, n: ScheduleRecord): string
  {
    ChangesText(FieldDiffs(o, n))
  }

  /** The changes are shown exactly when some field differs. */
  lemma {:induction false} ChangesTextEmptyIff(fs: seq<FieldDiff>)
    ensures ChangesText(fs) == "" <==> forall i :: 0 <= i < |fs| ==> !fs[i].differs
    decreases |fs|
  {
    if |fs| > 0 {
      var init := fs[..|fs| - 1];
      ChangesTextEmptyIff(init);
      assert forall i :: 0 <= i < |init| ==> init[i] == fs[i];
      var c := FieldChange(fs[|fs| - 1]);
      assert fs[|fs| - 1].differs ==> |c| >= 2;
    }
  }

  /** Two different records have at least one changed field to show. */
  lemma FieldChangesNonEmpty(o: ScheduleRecord, n: ScheduleRecord)
    requires o != n
    ensures |FieldChanges(o, n)| > 0
  {
    var fs := FieldDiffs(o, n);
    ChangesTextEmptyIff(fs);
    if o.includedNamespaces != n.includedNamespaces {
      assert fs[0].differs;
    } else if o.includedResources != n.includedResources {
      assert fs[1].differs;
    } else if o.defaultVolumesToFsBackup != n.defaultVolumesToFsBackup {
      assert fs[2].differs;
    } else {
      assert fs[3].differs;
    }
  }

  /** The heading of a changed schedule. */
  function Heading(name: string): string
  {
    "Schedule name:" + name + "\n"
  }

  /** The fields of the `i`-th changed schedule, old against new. */
  function UpdateFields(ov: seq<(string, ScheduleRecord)>, nv: seq<(string, ScheduleRecord)>, i: nat): seq<FieldDiff>
    requires i < |ov| && Keys(ov) == Keys(nv)
  {
    assert ov[i].0 in Keys(nv) by { assert Keys(ov)[i] == ov[i].0; }
    FieldDiffs(ov[i].1, Get(nv, ov[i].0))
  }

  /** The part for the first `n` changed schedules of the update section. */
  function UpdatesText(ov: seq<(string, ScheduleRecord)>, nv: seq<(string, ScheduleRecord)>, n: nat): string
    requires n <= |ov| && Keys(ov) == Keys(nv)
  {
    if n == 0 then ""
    else UpdatesText(ov, nv, n - 1) + (Heading(ov[n - 1].0) + ChangesText(UpdateFields(ov, nv, n - 1)))
  }

  /** The text of velero_checker.py lines 350-370 for a difference, given whether the old snapshot was empty. */
  function DiffText(diff: DictDiff, oldEmpty: bool): string
    requires Keys(diff.oldValues) == Keys(diff.newValues)
  {
    (if |diff.removed| > 0 then "Removed scheduled:" + Each("\n", diff.removed) else "")
    + (if !oldEmpty && |diff.added| > 0 then "\nAdded scheduled:" + Each("\n", diff.added) else "")
    + (if |diff.oldValues| > 0
       then "\nUpdate scheduled:" + UpdatesText(diff.oldValues, diff.newValues, |diff.oldValues|)
       else "")
  }

  /** The message `__process_schedule_report` builds for a new snapshot. */
  function ScheduleMessage(stored: ScheduleDict, data: ScheduleDict): string
  {
    DiffText(FindDictDifference(stored, data), |stored| == 0)
  }

  /**
   * The message is empty exactly when nothing was removed, nothing changed, and nothing was
   * added or the old snapshot was empty.
   */
  lemma ScheduleMessageEmptyIff(stored: ScheduleDict, data: ScheduleDict)
    ensures var diff := FindDictDifference(stored, data);
            ScheduleMessage(stored, data) == "" <==>
              |diff.removed| == 0 && (|stored| == 0 || |diff.added| == 0) && |diff.oldValues| == 0
  {
  }

  /** From an empty state the first snapshot yields an empty message, which is not sent. */
  lemma FirstScheduleSilent(data: ScheduleDict)
    ensures ScheduleMessage([], data) == ""
  {
    var diff := FindDictDifference([], data);
    NoMemberEmpty(diff.removed);
    NoMemberEmpty(Keys(diff.oldValues));
  }

  /** Any change to a non-empty snapshot yields a message. */
  lemma ScheduleChangeReported(stored: ScheduleDict, data: ScheduleDict)
    requires |stored| > 0 && !SameSchedules(stored, data)
    ensures ScheduleMessage(stored, data) != ""
  {
    DiffEmptyIffEqual(stored, data);
    ScheduleMessageEmptyIff(stored, data);
  }

  /**
   * `__process_schedule_report`: a snapshot equal to the stored one changes nothing; any
   * other is reported through `Send` and then stored.
   */
  function ScheduleReport(e: Engine, data: ScheduleDict, now: int): Engine
  {
    if SameSchedules(e.oldSchedules, data) then e
    else Send(e, ScheduleMessage(e.oldSchedules, data), now).(oldSchedules := data)
  }

  /** The loops of velero_checker.py lines 350-370: the method builds the message the function above describes. */
  method BuildScheduleMessage(stored: ScheduleDict, data: ScheduleDict) returns (message: string)
    ensures message == ScheduleMessage(stored, data)
  {
    var diff := FindDictDifference(stored, data);
    var removedText := "";
    if |diff.removed| > 0 {
      removedText := AppendLines("Removed scheduled:", "\n", diff.removed);
    }
    var addedText := "";
    if |stored| > 0 && |diff.added| > 0 {
      addedText := AppendLines("\nAdded scheduled:", "\n", diff.added);
    }
    var updateText := "";
    if |diff.oldValues| > 0 {
      updateText := AppendUpdates("\nUpdate scheduled:", diff.oldValues, diff.newValues);
    }
    message := removedText + addedText + updateText;
  }

  /** One `for` loop appending `lead + x` for each `x`. */
  method AppendLines(title: string, lead: string, xs: seq<string>) returns (text: string)
    ensures text == title + Each(lead, xs)
  {
    text := title;
    for i := 0 to |xs|
      invariant text == title + Each(lead, xs[..i])
    {
      assert xs[..i + 1][..i] == xs[..i];
      text := text + lead + xs[i];
    }
    assert xs[..|xs|] == xs;
  }

  /** The loop over the changed schedules and, inside it, over their fields. */
  method AppendUpdates(title: string, ov: seq<(string, ScheduleRecord)>, nv: seq<(string, ScheduleRecord)>) returns (text: string)
    requires Keys(ov) == Keys(nv)
    ensures text == title + UpdatesText(ov, nv, |ov|)
  {
    text := title;
    for i := 0 to |ov|
      invariant text == title + UpdatesText(ov, nv, i)
    {
      ghost var before := UpdatesText(ov, nv, i);
      var heading := Heading(ov[i].0);
      var fields := UpdateFields(ov, nv, i);
      var next := AppendFieldChanges(text + heading, fields);
      assert next == title + (before + (heading + ChangesText(fields))) by {
        AppendAssoc(title, before, heading, ChangesText(fields));
      }
      text := next;
    }
  }

  /** Concatenation regrouped. */
  lemma AppendAssoc(a: string, b: string, c: string, d: string)
    ensures a + b + c + d == a + (b + (c + d))
  {
  }

  /** The inner loop over the fields of one changed schedule. */
  method AppendFieldChanges(title: string, fs: seq<FieldDiff>) returns (text: string)
    ensures text == title + ChangesText(fs)
  {
    text := title;
    for j := 0 to |fs|
      invariant text == title + ChangesText(fs[..j])
    {
      ghost var prev := text;
      if fs[j].differs {
        text := text + (fs[j].field + ": " + fs[j].before + " -> " + fs[j].after);
      }
      assert text == prev + FieldChange(fs[j]);
      ChangesTextStep(title, fs, j);
    }
    assert fs[..|fs|] == fs;
  }

  /** One more field adds its change at the end. */
  lemma ChangesTextStep(title: string, fs: seq<FieldDiff>, j: nat)
    requires j < |fs|
    ensures title + ChangesText(fs[..j + 1]) == title + ChangesText(fs[..j]) + FieldChange(fs[j])
  {
    assert fs[..j + 1][..j] == fs[..j];
  }

  /** Storing a schedule snapshot twice is storing it once. */
  lemma ScheduleReportIdempotent(e: Engine, data: ScheduleDict, now: int, later: int)
    ensures ScheduleReport(ScheduleReport(e, data, now), data, later) == ScheduleReport(e, data, now)
  {
  }

  // ---------------------------------------------------------------------------------------
  // Backup snapshots
  // ---------------------------------------------------------------------------------------

  /** `_get_backup_error_message`: the rendering `'[]'` of an empty list stands for no message. */
  function ErrorText(message: string): (r: string)
    ensures r == "" <==> message == "[]" || message == ""
    ensures r != "" ==> r == message
  {
    if message == "[]" then "" else message
  }

  /** The four phases the report counts; the comparison is on the lower-cased phase. */
  datatype Phase = Completed | InProgress | Failed | PartiallyFailed | OtherPhase

  function PhaseOf(phase: string): Phase
  {
    var p := Lower(phase);
    if p == "completed" then Completed
    else if p == "inprogress" then InProgress
    else if p == "failed" then Failed
    else if p == "partiallyfailed" then PartiallyFailed
    else OtherPhase
  }

  /** What the expiry text of an entry contributes to the report. */
  datatype ExpiryNote =
    | NoExpiry     // the text is empty: no expiry line
    | NotValid     // the parse gives None: "**IS NOT VALID"
    | InWarning    // fewer days left than the warning threshold: "**WARNING"
    | Valid        // enough days left
    | Unparsable   // `int()` raises inside the parse

  function ExpiryNoteOf(expire: string, warningDays: int): ExpiryNote
  {
    if |expire| == 0 then NoExpiry
    else
      match ExtractDays(expire)
      case NoDays => NotValid
      case Days(n) => if n < warningDays then InWarning else Valid
      case Raises => Unparsable
  }

  /**
   * The notes are exclusive, and each is what the day parse gives: never both "not valid" and
   * "in warning".
   */
  lemma ExpiryNoteMeaning(expire: string, warningDays: int)
    ensures var r := ExpiryNoteOf(expire, warningDays);
            && (r == NoExpiry <==> expire == "")
            && (r == NotValid <==> expire != "" && ExtractDays(expire) == NoDays)
            && (r == InWarning <==> expire != "" && ExtractDays(expire).Days? && ExtractDays(expire).n < warningDays)
            && (r == Valid <==> expire != "" && ExtractDays(expire).Days? && ExtractDays(expire).n >= warningDays)
            && (r == Unparsable <==> expire != "" && ExtractDays(expire) == Raises)
  {
  }

  /** The groups of backups the report counts. */
  datatype Category =
    | CompletedBackups | InProgressBackups | FailedBackups | PartiallyFailedBackups
    | BackupsWithErrors | BackupsWithWarnings | ExpiringBackups | InvalidExpiry

  predicate InCategory(e: BackupEntry, c: Category, warningDays: int)
  {
    match c
    case CompletedBackups => PhaseOf(e.phase) == Completed
    case InProgressBackups => PhaseOf(e.phase) == InProgress
    case FailedBackups => PhaseOf(e.phase) == Failed
    case PartiallyFailedBackups => PhaseOf(e.phase) == PartiallyFailed
    case BackupsWithErrors => ErrorText(e.errors) != ""
    case BackupsWithWarnings => ErrorText(e.warnings) != ""
    case ExpiringBackups => ExpiryNoteOf(e.expire, warningDays) == InWarning
    case InvalidExpiry => ExpiryNoteOf(e.expire, warningDays) == NotValid
  }

  /** The names of the entries of a category, in report order: the reference the counters meet. */
  function Select(entries: seq<(string, BackupEntry)>, c: Category, warningDays: int): seq<string>
    decreases |entries|
  {
    if |entries| == 0 then []
    else
      var last := entries[|entries| - 1];
      Select(entries[..|entries| - 1], c, warningDays) + NameIf(InCategory(last.1, c, warningDays), last.0)
  }

  /**
   * The loop's accumulators (velero_checker.py lines 199-214): the completed and not-valid counters, and for every
   * other counter the names it appends, whose number is the counter; `details` is `message`.
   */
  datatype Tally = Tally(
    completed: nat,
    inProgress: seq<string>,
    failed: seq<string>,
    partiallyFailed: seq<string>,
    withErrors: seq<string>,
    withWarnings: seq<string>,
    expiring: seq<string>,
    notRetrieved: nat,
    details: string)

  const NoTally: Tally := Tally(0, [], [], [], [], [], [], 0, "")

  /** The expiry line of an entry. */
  function ExpiryText(e: BackupEntry, warningDays: int): string
  {
    if |e.expire| == 0 then ""
    else
      var note := ExpiryNoteOf(e.expire, warningDays);
      "\t expire=" + e.expire
      + (if note == NotValid then "**IS NOT VALID" + e.expire else if note == InWarning then "**WARNING" else "")
      + "\n"
  }

  /** `current_state`: the block describing one backup. */
  function EntryText(name: string, e: BackupEntry, warningDays: int): string
  {
    name + "\n"
    + "\t schedule name=" + OptionText(e.schedule) + "\n"
    + (if |e.completionTimestamp| > 0 then "\t end at=" + e.completionTimestamp + "\n" else "")
    + ExpiryText(e, warningDays)
    + (if |e.phase| > 0 then "\t status=" + e.phase + "\n" else "")
    + (if ErrorText(e.errors) != "" then "\t error=" + ErrorText(e.errors) + " " else "")
    + (if ErrorText(e.warnings) != "" then "\twarning=" + ErrorText(e.warnings) + "\n" else "")
    + "\n"
  }

  /** `n` if `b` holds, else nothing. */
  function NameIf(b: bool, name: string): seq<string>
  {
    if b then [name] else []
  }

  /**
   * One turn of the loop once the backup is classified: its expiry note, its phase, whether it
   * has errors and warnings, and its text block.
   */
  function Count(t: Tally, name: string, note: ExpiryNote, phase: Phase, hasErrors: bool, hasWarnings: bool,
                 block: string): Tally
  {
    Tally(
      t.completed + (if phase == Completed then 1 else 0),
      t.inProgress + NameIf(phase == InProgress, name),
      t.failed + NameIf(phase == Failed, name),
      t.partiallyFailed + NameIf(phase == PartiallyFailed, name),
      t.withErrors + NameIf(hasErrors, name),
      t.withWarnings + NameIf(hasWarnings, name),
      t.expiring + NameIf(note == InWarning, name),
      t.notRetrieved + (if note == NotValid then 1 else 0),
      t.details + block)
  }

  /** One turn of the loop; None where the day parse raises. */
  function Account(t: Tally, name: string, e: BackupEntry, warningDays: int): Option<Tally>
  {
    var note := ExpiryNoteOf(e.expire, warningDays);
    if note == Unparsable then None
    else
      Some(Count(t, name, note, PhaseOf(e.phase), ErrorText(e.errors) != "", ErrorText(e.warnings) != "",
                 EntryText(name, e, warningDays)))
  }

  /** The accumulators after the loop over `entries`. */
  function TallyOf(entries: seq<(string, BackupEntry)>, warningDays: int): Option<Tally>
    decreases |entries|
  {
    if |entries| == 0 then Some(NoTally)
    else
      match TallyOf(entries[..|entries| - 1], warningDays)
      case None => None
      case Some(t) => Account(t, entries[|entries| - 1].0, entries[|entries| - 1].1, warningDays)
  }

  /** The loop completes exactly when no expiry text makes the day parse raise. */
  lemma {:induction false} TallySucceedsIff(entries: seq<(string, BackupEntry)>, warningDays: int)
    ensures TallyOf(entries, warningDays).Some? <==>
              forall p :: p in entries ==> ExpiryNoteOf(p.1.expire, warningDays) != Unparsable
    decreases |entries|
  {
    if |entries| > 0 {
      var init := entries[..|entries| - 1];
      var last := entries[|entries| - 1];
      TallySucceedsIff(init, warningDays);
      TallyStepSucceeds(entries, warningDays);
      InInitOrLast(entries);
    }
  }

  /** One more turn completes exactly when the earlier ones did and its own day parse does not raise. */
  lemma TallyStepSucceeds(entries: seq<(string, BackupEntry)>, warningDays: int)
    requires |entries| > 0
    ensures TallyOf(entries, warningDays).Some? <==>
              && TallyOf(entries[..|entries| - 1], warningDays).Some?
              && ExpiryNoteOf(entries[|entries| - 1].1.expire, warningDays) != Unparsable
  {
  }

  /** A category's counter counts exactly its entries, and its name list lists them in order. */
  lemma {:induction false} TallyCounts(entries: seq<(string, BackupEntry)>, warningDays: int, c: Category)
    requires TallyOf(entries, warningDays).Some?
    ensures var t := TallyOf(entries, warningDays).value;
            && Counted(t, c) == |Select(entries, c, warningDays)|
            && (c != CompletedBackups && c != InvalidExpiry ==> Listed(t, c) == Select(entries, c, warningDays))
    decreases |entries|
  {
    if |entries| > 0 {
      var init := entries[..|entries| - 1];
      var last := entries[|entries| - 1];
      TallyCounts(init, warningDays, c);
      var t0 := TallyOf(init, warningDays).value;
      assert TallyOf(entries, warningDays) == Account(t0, last.0, last.1, warningDays);
      AccountStep(t0, last.0, last.1, warningDays, c);
    }
  }

  /** The phase counter counts exactly the completed entries, and the three phase lists list theirs. */
  lemma TallyPhaseFields(entries: seq<(string, BackupEntry)>, warningDays: int, t: Tally)
    requires TallyOf(entries, warningDays) == Some(t)
    ensures && t.completed == |Select(entries, CompletedBackups, warningDays)|
            && t.inProgress == Select(entries, InProgressBackups, warningDays)
            && t.failed == Select(entries, FailedBackups, warningDays)
            && t.partiallyFailed == Select(entries, PartiallyFailedBackups, warningDays)
  {
    assert t.completed == |Select(entries, CompletedBackups, warningDays)| by {
      TallyCounts(entries, warningDays, CompletedBackups);
    }
    assert t.inProgress == Select(entries, InProgressBackups, warningDays) by {
      TallyCounts(entries, warningDays, InProgressBackups);
    }
    assert t.failed == Select(entries, FailedBackups, warningDays) by {
      TallyCounts(entries, warningDays, FailedBackups);
    }
    assert t.partiallyFailed == Select(entries, PartiallyFailedBackups, warningDays) by {
      TallyCounts(entries, warningDays, PartiallyFailedBackups);
    }
  }

  /** The error and warning lists list exactly the entries with errors and with warnings. */
  lemma TallyFlagFields(entries: seq<(string, BackupEntry)>, warningDays: int, t: Tally)
    requires TallyOf(entries, warningDays) == Some(t)
    ensures && t.withErrors == Select(entries, BackupsWithErrors, warningDays)
            && t.withWarnings == Select(entries, BackupsWithWarnings, warningDays)
  {
    assert t.withErrors == Select(entries, BackupsWithErrors, warningDays) by {
      TallyCounts(entries, warningDays, BackupsWithErrors);
    }
    assert t.withWarnings == Select(entries, BackupsWithWarnings, warningDays) by {
      TallyCounts(entries, warningDays, BackupsWithWarnings);
    }
  }

  /** The expiry list lists exactly the entries in warning, and the "not valid" counter counts its own. */
  lemma TallyExpiryFields(entries: seq<(string, BackupEntry)>, warningDays: int, t: Tally)
    requires TallyOf(entries, warningDays) == Some(t)
    ensures && t.expiring == Select(entries, ExpiringBackups, warningDays)
            && t.notRetrieved == |Select(entries, InvalidExpiry, warningDays)|
  {
    assert t.expiring == Select(entries, ExpiringBackups, warningDays) by {
      TallyCounts(entries, warningDays, ExpiringBackups);
    }
    assert t.notRetrieved == |Select(entries, InvalidExpiry, warningDays)| by {
      TallyCounts(entries, warningDays, InvalidExpiry);
    }
  }

  /** The names a tally lists for a category; the two counted categories list none. */
  function Listed(t: Tally, c: Category): seq<string>
  {
    match c
    case CompletedBackups => []
    case InProgressBackups => t.inProgress
    case FailedBackups => t.failed
    case PartiallyFailedBackups => t.partiallyFailed
    case BackupsWithErrors => t.withErrors
    case BackupsWithWarnings => t.withWarnings
    case ExpiringBackups => t.expiring
    case InvalidExpiry => []
  }

  /** How many backups a tally counts for a category. */
  function Counted(t: Tally, c: Category): nat
  {
    match c
    case CompletedBackups => t.completed
    case InvalidExpiry => t.notRetrieved
    case _ => |Listed(t, c)|
  }

  /** One turn counts the entry in exactly the groups it belongs to, and lists its name there. */
  lemma AccountStep(t: Tally, name: string, e: BackupEntry, warningDays: int, c: Category)
    requires Account(t, name, e, warningDays).Some?
    ensures var r := Account(t, name, e, warningDays).value;
            && Counted(r, c) == Counted(t, c) + |NameIf(InCategory(e, c, warningDays), name)|
            && (c != CompletedBackups && c != InvalidExpiry ==>
                  Listed(r, c) == Listed(t, c) + NameIf(InCategory(e, c, warningDays), name))
  {
    var note := ExpiryNoteOf(e.expire, warningDays);
    var block := EntryText(name, e, warningDays);
    AccountCounts(t, name, e, warningDays, note, block);
    CountGroups(t, name, note, PhaseOf(e.phase), ErrorText(e.errors) != "", ErrorText(e.warnings) != "", block);
  }

  /** A turn that does not raise is `Count` on the entry's classification. */
  lemma AccountCounts(t: Tally, name: string, e: BackupEntry, warningDays: int, note: ExpiryNote, block: string)
    requires note == ExpiryNoteOf(e.expire, warningDays) && block == EntryText(name, e, warningDays)
    requires Account(t, name, e, warningDays).Some?
    ensures note != Unparsable
    ensures Account(t, name, e, warningDays).value ==
              Count(t, name, note, PhaseOf(e.phase), ErrorText(e.errors) != "", ErrorText(e.warnings) != "", block)
  {
  }

  /** `Count` adds the name to exactly the groups its classification selects. */
  lemma CountGroups(t: Tally, name: string, note: ExpiryNote, phase: Phase, hasErrors: bool, hasWarnings: bool,
                    block: string)
    ensures var r := Count(t, name, note, phase, hasErrors, hasWarnings, block);
            && r.completed == t.completed + |NameIf(phase == Completed, name)|
            && r.inProgress == t.inProgress + NameIf(phase == InProgress, name)
            && r.failed == t.failed + NameIf(phase == Failed, name)
            && r.partiallyFailed == t.partiallyFailed + NameIf(phase == PartiallyFailed, name)
            && r.withErrors == t.withErrors + NameIf(hasErrors, name)
            && r.withWarnings == t.withWarnings + NameIf(hasWarnings, name)
            && r.expiring == t.expiring + NameIf(note == InWarning, name)
            && r.notRetrieved == t.notRetrieved + |NameIf(note == NotValid, name)|
            && r.details == t.details + block
  {
  }

  /** A name is selected exactly when some entry of the category carries it. */
  lemma {:induction false} SelectMembers(entries: seq<(string, BackupEntry)>, c: Category, warningDays: int, x: string)
    ensures x in Select(entries, c, warningDays) <==>
              exists p :: p in entries && p.0 == x && InCategory(p.1, c, warningDays)
    decreases |entries|
  {
    if |entries| > 0 {
      var init := entries[..|entries| - 1];
      var last := entries[|entries| - 1];
      SelectMembers(init, c, warningDays, x);
      InInitOrLast(entries);
    }
  }

  /** No group holds more backups than there are. */
  lemma {:induction false} SelectBound(entries: seq<(string, BackupEntry)>, c: Category, warningDays: int)
    ensures |Select(entries, c, warningDays)| <= |entries|
    decreases |entries|
  {
    if |entries| > 0 {
      SelectBound(entries[..|entries| - 1], c, warningDays);
    }
  }

  /** The four phases are exclusive, so together they never exceed the number of backups. */
  lemma {:induction false} PhaseBound(entries: seq<(string, BackupEntry)>, warningDays: int)
    ensures |Select(entries, CompletedBackups, warningDays)| + |Select(entries, InProgressBackups, warningDays)|
            + |Select(entries, FailedBackups, warningDays)| + |Select(entries, PartiallyFailedBackups, warningDays)|
            <= |entries|
    decreases |entries|
  {
    if |entries| > 0 {
      PhaseBound(entries[..|entries| - 1], warningDays);
    }
  }

  /** A backup is never both "not valid" and "in warning", so the two counts fit the total. */
  lemma {:induction false} ExpiryBound(entries: seq<(string, BackupEntry)>, warningDays: int)
    ensures |Select(entries, ExpiringBackups, warningDays)| + |Select(entries, InvalidExpiry, warningDays)| <= |entries|
    decreases |entries|
  {
    if |entries| > 0 {
      ExpiryBound(entries[..|entries| - 1], warningDays);
    }
  }

  /** The report's counters are bounded by `len(backups)`. */
  lemma TallyBounds(entries: seq<(string, BackupEntry)>, warningDays: int)
    requires TallyOf(entries, warningDays).Some?
    ensures var t := TallyOf(entries, warningDays).value;
            && t.completed + |t.inProgress| + |t.failed| + |t.partiallyFailed| <= |entries|
            && |t.withErrors| <= |entries| && |t.withWarnings| <= |entries|
            && |t.expiring| + t.notRetrieved <= |entries|
  {
    var t := TallyOf(entries, warningDays).value;
    TallyPhaseFields(entries, warningDays, t);
    TallyFlagFields(entries, warningDays, t);
    TallyExpiryFields(entries, warningDays, t);
    PhaseBound(entries, warningDays);
    ExpiryBound(entries, warningDays);
    SelectBound(entries, BackupsWithErrors, warningDays);
    SelectBound(entries, BackupsWithWarnings, warningDays);
  }

  /**
   * The loop of velero_checker.py lines 219-278; the local counters and strings are the fields of `t`. It stops
   * where the day parse raises.
   */
  method TallyBackups(entries: seq<(string, BackupEntry)>, warningDays: int) returns (r: Option<Tally>)
    ensures r == TallyOf(entries, warningDays)
  {
    var t := NoTally;
    for i := 0 to |entries|
      invariant TallyOf(entries[..i], warningDays) == Some(t)
    {
      assert entries[..i + 1][..i] == entries[..i];
      if ExpiryNoteOf(entries[i].1.expire, warningDays) == Unparsable {
        assert entries[i] in entries;
        TallySucceedsIff(entries, warningDays);
        return None;
      }
      var (name, info) := entries[i];
      t := CountBackup(t, name, ExpiryNoteOf(info.expire, warningDays), PhaseOf(info.phase),
                       ErrorText(info.errors) != "", ErrorText(info.warnings) != "", EntryText(name, info, warningDays));
    }
    assert entries[..|entries|] == entries;
    return Some(t);
  }

  /** One turn of the loop: the expiry, phase, error and warning counters, then the text block. */
  method CountBackup(t: Tally, name: string, note: ExpiryNote, phase: Phase, hasErrors: bool, hasWarnings: bool,
                     block: string) returns (r: Tally)
    ensures r == Count(t, name, note, phase, hasErrors, hasWarnings, block)
  {
    var completed, inProgress, failed, partiallyFailed := t.completed, t.inProgress, t.failed, t.partiallyFailed;
    var withErrors, withWarnings, expiring, notRetrieved := t.withErrors, t.withWarnings, t.expiring, t.notRetrieved;
    if note == NotValid {
      notRetrieved := notRetrieved + 1;
    } else if note == InWarning {
      expiring := expiring + [name];
    }
    if phase == Completed {
      completed := completed + 1;
    } else if phase == InProgress {
      inProgress := inProgress + [name];
    } else if phase == Failed {
      failed := failed + [name];
    } else if phase == PartiallyFailed {
      partiallyFailed := partiallyFailed + [name];
    }
    if hasErrors {
      withErrors := withErrors + [name];
    }
    if hasWarnings {
      withWarnings := withWarnings + [name];
    }
    r := Tally(completed, inProgress, failed, partiallyFailed, withErrors, withWarnings, expiring, notRetrieved,
               t.details + block);
  }

  /** Every pair of a placed view is the new record or was there before. */
  lemma PlaceFrom(v: View, name: string, e: BackupEntry)
    ensures forall p :: p in Place(v, name, e) ==> p == (name, e) || p in v
  {
  }

  /** Every record of a resolved view carries an expiry text the day parse reads without raising. */
  lemma {:induction false} ResolvedExpiriesParse(xs: seq<RawBackup>)
    requires Resolved(xs).Some?
    ensures forall p :: p in Resolved(xs).value ==> ExtractDays(p.1.expire) != Raises
    decreases |xs|
  {
    if |xs| > 0 {
      var init := xs[..|xs| - 1];
      var b := xs[|xs| - 1];
      ResolvedExpiriesParse(init);
      var v := Resolved(init).value;
      if HasStatus(b) {
        var e := EntryOf(b).value;
        PlaceFrom(v, b.name, e);
        EntryExpiryParses(b);
      }
    }
  }

  /**
   * On a resolved view the checker's day parse as written (velero_checker.py line 237, body lines 172-185)
   * gives what the intended parse gives, so every expiry note, and with it the report, is the same under both.
   */
  lemma {:induction false} ResolvedExpiriesAsWritten(xs: seq<RawBackup>)
    requires Resolved(xs).Some?
    ensures forall p :: p in Resolved(xs).value ==> ExtractDaysAsWritten(p.1.expire) == ExtractDays(p.1.expire)
    decreases |xs|
  {
    if |xs| > 0 {
      var init := xs[..|xs| - 1];
      var b := xs[|xs| - 1];
      ResolvedExpiriesAsWritten(init);
      var v := Resolved(init).value;
      if HasStatus(b) {
        var e := EntryOf(b).value;
        PlaceFrom(v, b.name, e);
        EntryExpiryAsWritten(b);
      }
    }
  }

  /** So the report over a resolved view is always built. */
  lemma ResolvedTallies(xs: seq<RawBackup>, warningDays: int)
    requires Resolved(xs).Some?
    ensures TallyOf(Resolved(xs).value, warningDays).Some?
  {
    var v := Resolved(xs).value;
    ResolvedExpiriesParse(xs);
    forall p | p in v ensures ExpiryNoteOf(p.1.expire, warningDays) != Unparsable {
      ExpiryNoteMeaning(p.1.expire, warningDays);
    }
    TallySucceedsIff(v, warningDays);
  }

  /** `f'\t{x}\n'` for each `x`: the uncovered-namespace listing. */
  function Rows(xs: seq<string>): string
    decreases |xs|
  {
    if |xs| == 0 then "" else Rows(xs[..|xs| - 1]) + "\t" + xs[|xs| - 1] + "\n"
  }

  const Point: string := "\U{2022}"

  /** The summary header of velero_checker.py lines 282-302. */
  function HeaderText(t: Tally, total: nat, usNs: Coverage, warningDays: int): string
  {
    Point + " Namespaces=" + IntText(usNs.counterAll) + " \n"
    + Point + " Unscheduled namespaces=" + IntText(usNs.counter) + "\n"
    + "Backups Stats based on last backup for every schedule and backup without schedule"
    + "\n" + Point + " Total=" + IntText(total)
    + "\n" + Point + " Completed=" + IntText(t.completed)
    + (if |t.inProgress| > 0
       then "\n" + Point + " In Progress=" + IntText(|t.inProgress|) + Each("\n\t", t.inProgress) else "")
    + (if |t.withErrors| > 0
       then "\n" + Point + " With Errors=" + IntText(|t.withErrors|) + "\n" + Each("\t", t.withErrors) else "")
    + (if |t.withWarnings| > 0
       then "\n" + Point + " With Warnings=" + IntText(|t.withWarnings|) + "\n" + Each("\t", t.withWarnings) else "")
    + (if |t.failed| > 0
       then "\n" + Point + " Failed=" + IntText(|t.failed|) + Each("\n\t", t.failed) else "")
    + (if |t.partiallyFailed| > 0
       then "\n" + Point + " Partially Failed=" + IntText(|t.partiallyFailed|) + Each("\n\t", t.partiallyFailed)
       else "")
    + (if |t.expiring| > 0
       then "\n" + Point + " Number of backups in warning period=" + IntText(|t.expiring|) + " "
            + "[expires day less than " + IntText(warningDays) + "d]" + Each("\n\t", t.expiring)
       else "")
  }

  /** The detail body: one block per backup under its counters. */
  function DetailsText(t: Tally, total: nat, usNs: Coverage): string
  {
    "Backup details [" + IntText(total) + "/" + IntText(usNs.counterAll) + "]:\n" + t.details
  }

  /** The body that replaces the details when some namespace has no schedule. */
  function CoverageText(usNs: Coverage): string
  {
    "Namespace without active backup [" + IntText(usNs.counter) + "/" + IntText(usNs.counterAll) + "]:\n"
    + Rows(usNs.difference)
  }

  /** `out_message`: the header, then the coverage listing if there is one, else the details. */
  function ReportText(data: BackupSnapshot, t: Tally, warningDays: int): string
  {
    HeaderText(t, |data.backups|, data.usNs, warningDays) + "\n"
    + (if |data.usNs.difference| > 0 then CoverageText(data.usNs) else DetailsText(t, |data.backups|, data.usNs))
  }

  /**
   * `__process_last_backup_report`: identical data changes nothing; otherwise the report is
   * sent when longer than 10 characters and the data is stored. A raising day parse abandons
   * the report without a change. The view is an `OrderedDict`, whose `==` compares order too,
   * as sequence equality does.
   */
  function BackupReport(e: Engine, st: Settings, data: BackupSnapshot, now: int): Engine
  {
    if e.oldBackup == Some(data) then e
    else
      match TallyOf(data.backups, st.expiresDaysWarning)
      case None => e
      case Some(t) =>
        StoreReport(e, ReportText(data, t, st.expiresDaysWarning), data, now)
  }

  /** A report longer than 10 characters is sent; the data it describes is remembered. */
  function StoreReport(e: Engine, out: string, data: BackupSnapshot, now: int): Engine
  {
    (if |out| > 10 then Send(e, out, now) else e).(oldBackup := Some(data))
  }

  /** The length guard of velero_checker.py line 314 always passes: the header alone is longer. */
  lemma ReportLong(data: BackupSnapshot, t: Tally, warningDays: int)
    ensures |ReportText(data, t, warningDays)| > 10
  {
    assert |" Namespaces="| == 12;
  }

  /** Reporting the same backup data twice is reporting it once. */
  lemma BackupReportIdempotent(e: Engine, st: Settings, data: BackupSnapshot, now: int, later: int)
    ensures BackupReport(BackupReport(e, st, data, now), st, data, later) == BackupReport(e, st, data, now)
  {
  }

  /**
   * New backup data in immediate mode puts exactly one report on the queue, the header with the
   * body, and stores the data; identical data does nothing.
   */
  lemma BackupReportSends(e: Engine, st: Settings, data: BackupSnapshot, now: int)
    requires !e.uniqueMessage && e.oldBackup != Some(data)
    requires TallyOf(data.backups, st.expiresDaysWarning).Some?
    ensures var r := BackupReport(e, st, data, now);
            var t := TallyOf(data.backups, st.expiresDaysWarning).value;
            && r.outbound == e.outbound + [ReportText(data, t, st.expiresDaysWarning)]
            && r.oldBackup == Some(data) && r.lastSend == now
            && r.oldSchedules == e.oldSchedules && r.finalMessage == e.finalMessage
  {
    ReportLong(data, TallyOf(data.backups, st.expiresDaysWarning).value, st.expiresDaysWarning);
  }

  /** `sub` occurs in `s` at index `i`. */
  predicate OccursAt(s: string, sub: string, i: int)
  {
    0 <= i <= |s| - |sub| && s[i..i + |sub|] == sub
  }

  /** `sub in s` */
  ghost predicate Contains(s: string, sub: string)
  {
    exists i :: OccursAt(s, sub, i)
  }

  lemma ContainsInSuffix(a: string, b: string, sub: string)
    requires Contains(b, sub)
    ensures Contains(a + b, sub)
  {
    var i :| OccursAt(b, sub, i);
    assert (a + b)[|a| + i..|a| + i + |sub|] == b[i..i + |sub|];
    assert OccursAt(a + b, sub, |a| + i);
  }

  lemma ContainsInPrefix(a: string, b: string, sub: string)
    requires Contains(a, sub)
    ensures Contains(a + b, sub)
  {
    var i :| OccursAt(a, sub, i);
    assert (a + b)[i..i + |sub|] == a[i..i + |sub|];
    assert OccursAt(a + b, sub, i);
  }

  /** The listing has a row for each namespace it is given. */
  lemma {:induction false} RowsList(xs: seq<string>, x: string)
    requires x in xs
    ensures Contains(Rows(xs), "\t" + x + "\n")
    decreases |xs|
  {
    var init := xs[..|xs| - 1];
    var row := "\t" + x + "\n";
    if x == xs[|xs| - 1] {
      assert Rows(xs) == Rows(init) + row;
      assert OccursAt(row, row, 0) by { assert row[0..|row|] == row; }
      ContainsInSuffix(Rows(init), row, row);
    } else {
      assert x in init by { assert xs == init + [xs[|xs| - 1]]; }
      RowsList(init, x);
      var last := "\t" + xs[|xs| - 1] + "\n";
      assert Rows(xs) == Rows(init) + last;
      ContainsInPrefix(Rows(init), last, row);
    }
  }

  /**
   * When some namespace has no schedule, the report lists every such namespace on a row of its
   * own, whatever the backups are.
   */
  lemma UncoveredListed(data: BackupSnapshot, t: Tally, warningDays: int, ns: string)
    requires ns in data.usNs.difference
    ensures Contains(ReportText(data, t, warningDays), "\t" + ns + "\n")
  {
    var row := "\t" + ns + "\n";
    RowsList(data.usNs.difference, ns);
    var title := "Namespace without active backup [" + IntText(data.usNs.counter) + "/"
                 + IntText(data.usNs.counterAll) + "]:\n";
    ContainsInSuffix(title, Rows(data.usNs.difference), row);
    assert CoverageText(data.usNs) == title + Rows(data.usNs.difference);
    var head := HeaderText(t, |data.backups|, data.usNs, warningDays) + "\n";
    ContainsInSuffix(head, CoverageText(data.usNs), row);
  }

  /** The text blocks of the entries, one after the other, in view order. */
  function Blocks(entries: seq<(string, BackupEntry)>, warningDays: int): string
    decreases |entries|
  {
    if |entries| == 0 then ""
    else
      var last := entries[|entries| - 1];
      Blocks(entries[..|entries| - 1], warningDays) + EntryText(last.0, last.1, warningDays)
  }

  /** The accumulated `message` is the blocks of all the backups, in view order. */
  lemma {:induction false} TallyDetails(entries: seq<(string, BackupEntry)>, warningDays: int)
    requires TallyOf(entries, warningDays).Some?
    ensures TallyOf(entries, warningDays).value.details == Blocks(entries, warningDays)
    decreases |entries|
  {
    if |entries| > 0 {
      TallyDetails(entries[..|entries| - 1], warningDays);
    }
  }

  /** The blocks hold each entry's block. */
  lemma {:induction false} BlocksList(entries: seq<(string, BackupEntry)>, warningDays: int, p: (string, BackupEntry))
    requires p in entries
    ensures Contains(Blocks(entries, warningDays), EntryText(p.0, p.1, warningDays))
    decreases |entries|
  {
    var init := entries[..|entries| - 1];
    var last := entries[|entries| - 1];
    var block := EntryText(p.0, p.1, warningDays);
    if p == last {
      assert OccursAt(block, block, 0) by { assert block[0..|block|] == block; }
      ContainsInSuffix(Blocks(init, warningDays), block, block);
    } else {
      assert p in init by { InInitOrLast(entries); }
      BlocksList(init, warningDays, p);
      ContainsInPrefix(Blocks(init, warningDays), EntryText(last.0, last.1, warningDays), block);
    }
  }

  /** When every namespace has a schedule, the report holds the block of every backup. */
  lemma BackupsDetailed(data: BackupSnapshot, warningDays: int, p: (string, BackupEntry))
    requires |data.usNs.difference| == 0 && p in data.backups
    requires TallyOf(data.backups, warningDays).Some?
    ensures var t := TallyOf(data.backups, warningDays).value;
            Contains(ReportText(data, t, warningDays), EntryText(p.0, p.1, warningDays))
  {
    var t := TallyOf(data.backups, warningDays).value;
    var block := EntryText(p.0, p.1, warningDays);
    TallyDetails(data.backups, warningDays);
    BlocksList(data.backups, warningDays, p);
    var title := "Backup details [" + IntText(|data.backups|) + "/" + IntText(data.usNs.counterAll) + "]:\n";
    ContainsInSuffix(title, t.details, block);
    assert DetailsText(t, |data.backups|, data.usNs) == title + t.details;
    ContainsInSuffix(HeaderText(t, |data.backups|, data.usNs, warningDays) + "\n",
                     DetailsText(t, |data.backups|, data.usNs), block);
  }

  // ---------------------------------------------------------------------------------------
  // Cluster name and configuration
  // ---------------------------------------------------------------------------------------

  /** `send_active_configuration`: the restart title, the enabled reports and the alive interval. */
  function ConfigurationText(st: Settings, subTitle: Option<string>): string
  {
    var title := "velero-watchdog is restarted"
                 + (if subTitle.Some? && |subTitle.value| > 0 then "\n" + subTitle.value else "");
    var msg := "Configuration setup:\n"
               + "  . backup status= " + (if st.backupEnable then "ENABLE" else ".") + "\n"
               + "  . scheduled status= " + (if st.scheduleEnable then "ENABLE" else ".") + "\n"
               + (if AliveSeconds(st) >= 3600
                  then "\nAlive message every " + IntText(st.aliveHours) + " hours"
                  else "\nAlive message every " + IntText(st.aliveHours * 60) + " minutes");
    title + "\n\n" + msg
  }

  function ActiveConfiguration(e: Engine, st: Settings, subTitle: Option<string>, now: int): Engine
  {
    Send(e, ConfigurationText(st, subTitle), now)
  }

  /**
   * `__process_cluster_name__`: a present name is reported, with the configuration unless it
   * was sent separately; the name is stored in every case, None included.
   */
  function ClusterNameReport(e: Engine, st: Settings, name: Option<string>, now: int): Engine
  {
    var e1 := if name.None? then e
              else if e.sendConfig then Send(e, "Cluster name= " + name.value, now)
              else ActiveConfiguration(e, st, Some("Cluster name= " + name.value), now);
    e1.(clusterName := name)
  }

  /**
   * Nothing sets `send_config`, so in every state the checker reaches, each cluster name is
   * reported inside a full configuration message.
   */
  lemma ClusterNameConfigures(e: Engine, st: Settings, name: string, now: int)
    requires !e.sendConfig && !e.uniqueMessage
    ensures var r := ClusterNameReport(e, st, Some(name), now);
            && r.outbound == e.outbound + [ConfigurationText(st, Some("Cluster name= " + name))]
            && r.clusterName == Some(name) && r.lastSend == now
  {
  }

  // ---------------------------------------------------------------------------------------
  // Dispatch
  // ---------------------------------------------------------------------------------------

  /** `__unpack_data__`: the first key present decides, then the alive check runs. */
  function Unpack(e: Engine, st: Settings, item: Item, now: int): Engine
  {
    match item
    case NotDict => Heartbeat(e, st, now)
    case Message(_, _, _, _, _) => Heartbeat(Dispatch(e, st, item, now), st, now)
  }

  /** An item whose first key present is the end marker. */
  predicate EndsAggregation(item: Item)
  {
    item.Message? && item.cluster.None? && item.schedule.None? && item.backup.None? && !item.start && item.end
  }

  /**
   * What every processor keeps: the queue only grows, by one message at most and not at all in
   * aggregation mode; the mode and `send_config` stay; the buffer stays empty outside it.
   */
  predicate Grows(e: Engine, r: Engine)
  {
    && e.outbound <= r.outbound && |r.outbound| <= |e.outbound| + 1
    && (e.uniqueMessage ==> r.outbound == e.outbound)
    && r.uniqueMessage == e.uniqueMessage && r.sendConfig == e.sendConfig
    && (BufferInvariant(e) ==> BufferInvariant(r))
  }

  lemma SendGrows(e: Engine, message: string, now: int)
    ensures Grows(e, Send(e, message, now))
  {
  }

  lemma HeartbeatGrows(e: Engine, st: Settings, now: int)
    ensures Grows(e, Heartbeat(e, st, now))
  {
    SendGrows(e, AliveText(e, st), now);
  }

  lemma ScheduleReportGrows(e: Engine, data: ScheduleDict, now: int)
    ensures Grows(e, ScheduleReport(e, data, now))
  {
    if !SameSchedules(e.oldSchedules, data) {
      SendStoreGrows(e, ScheduleMessage(e.oldSchedules, data), data, now);
    }
  }

  lemma SendStoreGrows(e: Engine, message: string, data: ScheduleDict, now: int)
    ensures Grows(e, Send(e, message, now).(oldSchedules := data))
  {
    SendGrows(e, message, now);
  }

  lemma BackupReportGrows(e: Engine, st: Settings, data: BackupSnapshot, now: int)
    ensures Grows(e, BackupReport(e, st, data, now))
  {
    var t := TallyOf(data.backups, st.expiresDaysWarning);
    if e.oldBackup != Some(data) && t.Some? {
      var out := ReportText(data, t.value, st.expiresDaysWarning);
      assert BackupReport(e, st, data, now) == StoreReport(e, out, data, now);
      StoreReportGrows(e, out, data, now);
    } else {
      assert BackupReport(e, st, data, now) == e;
    }
  }

  lemma StoreReportGrows(e: Engine, out: string, data: BackupSnapshot, now: int)
    ensures Grows(e, StoreReport(e, out, data, now))
  {
    SendGrows(e, out, now);
  }

  lemma ClusterNameReportGrows(e: Engine, st: Settings, name: Option<string>, now: int)
    ensures Grows(e, ClusterNameReport(e, st, name, now))
  {
    if name.Some? {
      SendGrows(e, "Cluster name= " + name.value, now);
      SendGrows(e, ConfigurationText(st, Some("Cluster name= " + name.value)), now);
    }
  }

  /** The step before the alive check, for an item that is a dict. */
  function Dispatch(e: Engine, st: Settings, item: Item, now: int): Engine
    requires item.Message?
  {
    if item.cluster.Some? then ClusterNameReport(e, st, item.cluster.value, now)
    else if item.schedule.Some? then ScheduleReport(e, item.schedule.value, now)
    else if item.backup.Some? then BackupReport(e, st, item.backup.value, now)
    else if item.start then StartMarker(e)
    else if item.end then Summary(e, now)
    else e
  }

  /** Every item but the two markers leaves the mode and grows the queue as `Grows` says. */
  lemma DispatchGrows(e: Engine, st: Settings, item: Item, now: int)
    requires item.Message?
    requires item.cluster.Some? || item.schedule.Some? || item.backup.Some? || (!item.start && !item.end)
    ensures Grows(e, Dispatch(e, st, item, now))
  {
    if item.cluster.Some? {
      ClusterNameReportGrows(e, st, item.cluster.value, now);
    } else if item.schedule.Some? {
      ScheduleReportGrows(e, item.schedule.value, now);
    } else if item.backup.Some? {
      BackupReportGrows(e, st, item.backup.value, now);
    }
  }

  /** The outbound queue only grows, by at most two messages per item (a report and an alive message). */
  lemma UnpackGrows(e: Engine, st: Settings, item: Item, now: int)
    ensures var r := Unpack(e, st, item, now);
            e.outbound <= r.outbound && |r.outbound| <= |e.outbound| + 2
  {
    if item.NotDict? {
      HeartbeatGrows(e, st, now);
    } else {
      var e1 := Dispatch(e, st, item, now);
      assert Unpack(e, st, item, now) == Heartbeat(e1, st, now);
      HeartbeatGrows(e1, st, now);
      if item.cluster.Some? || item.schedule.Some? || item.backup.Some? || (!item.start && !item.end) {
        DispatchGrows(e, st, item, now);
      }
    }
  }

  /** The buffer stays empty outside aggregation mode, and nothing ever sets `send_config`. */
  lemma UnpackKeepsInvariant(e: Engine, st: Settings, item: Item, now: int)
    requires BufferInvariant(e)
    ensures BufferInvariant(Unpack(e, st, item, now))
    ensures Unpack(e, st, item, now).sendConfig == e.sendConfig
  {
    if item.NotDict? {
      HeartbeatGrows(e, st, now);
    } else {
      var e1 := Dispatch(e, st, item, now);
      assert Unpack(e, st, item, now) == Heartbeat(e1, st, now);
      HeartbeatGrows(e1, st, now);
      if item.cluster.Some? || item.schedule.Some? || item.backup.Some? || (!item.start && !item.end) {
        DispatchGrows(e, st, item, now);
      }
    }
  }

  /** In aggregation mode every item but the end marker queues nothing and keeps the mode. */
  lemma AggregationBuffers(e: Engine, st: Settings, item: Item, now: int)
    requires e.uniqueMessage && !EndsAggregation(item)
    ensures Unpack(e, st, item, now).outbound == e.outbound
    ensures Unpack(e, st, item, now).uniqueMessage
  {
    if item.NotDict? {
      HeartbeatGrows(e, st, now);
    } else {
      var e1 := Dispatch(e, st, item, now);
      assert Unpack(e, st, item, now) == Heartbeat(e1, st, now);
      if item.cluster.Some? || item.schedule.Some? || item.backup.Some? || (!item.start && !item.end) {
        DispatchGrows(e, st, item, now);
      }
      HeartbeatGrows(e1, st, now);
    }
  }

  /** A start marker directly followed by the end marker queues nothing. */
  lemma StartThenEndSilent(e: Engine, now: int)
    ensures Summary(StartMarker(e), now).outbound == e.outbound
    ensures BufferInvariant(Summary(StartMarker(e), now))
  {
  }

  /** The alive check: at most one alive message, through `Send`, and the force flag drops. */
  lemma HeartbeatEffect(e: Engine, st: Settings, now: int)
    ensures var r := Heartbeat(e, st, now);
            && (!AliveDue(e, st, now) ==> r == e)
            && (AliveDue(e, st, now) && !e.uniqueMessage ==>
                  r.outbound == e.outbound + [AliveText(e, st)] && r.lastSend == now && !r.forceAlive)
            && (AliveDue(e, st, now) && e.uniqueMessage ==>
                  && r.outbound == e.outbound && r.lastSend == e.lastSend && !r.forceAlive
                  && |AliveText(e, st)| <= |r.finalMessage|
                  && r.finalMessage[|r.finalMessage| - |AliveText(e, st)|..] == AliveText(e, st))
  {
  }

  /** An interval of zero hours turns the alive message off. */
  lemma HeartbeatDisabled(e: Engine, st: Settings, now: int)
    requires st.aliveHours <= 0
    ensures Heartbeat(e, st, now) == e
  {
  }

  /** A message queued at `now` postpones the alive message: it does not follow in the same turn. */
  lemma NoHeartbeatAfterSend(e: Engine, st: Settings, now: int)
    requires e.lastSend == now && !e.forceAlive
    ensures Heartbeat(e, st, now) == e
  {
  }

  /**
   * In aggregation mode the alive message is buffered without moving `last_send`, so it is due
   * again on the next item.
   */
  lemma HeartbeatRepeatsWhileBuffering(e: Engine, st: Settings, now: int)
    requires e.uniqueMessage && AliveSeconds(st) > 0 && now - e.lastSend > AliveSeconds(st)
    ensures AliveDue(Heartbeat(e, st, now), st, now)
  {
  }

  /** `run`: the loop takes items until the `None` sentinel; `nows` holds one clock reading per item. */
  function Drain(e: Engine, st: Settings, items: seq<Option<Item>>, nows: seq<int>): Engine
    requires |nows| == |items|
    decreases |items|
  {
    if |items| == 0 then e
    else
      match items[0]
      case None => e
      case Some(item) => Drain(Unpack(e, st, item, nows[0]), st, items[1..], nows[1..])
  }

  /** `run` as a whole: the configuration first when it is sent separately, then the loop. */
  function RunOf(e: Engine, st: Settings, items: seq<Option<Item>>, nows: seq<int>, start: int): Engine
    requires |nows| == |items|
  {
    var e1 := if e.sendConfig then ActiveConfiguration(e, st, None, start) else e;
    Drain(e1, st, items, nows)
  }

  /** Nothing after the sentinel is read. */
  lemma {:induction false} DrainStopsAtSentinel(e: Engine, st: Settings, items: seq<Option<Item>>,
                                                rest: seq<Option<Item>>, nows: seq<int>)
    requires |nows| == |items| + 1 + |rest|
    ensures Drain(e, st, items + [None] + rest, nows) == Drain(e, st, items, nows[..|items|])
    decreases |items|
  {
    if |items| == 0 {
    } else {
      assert (items + [None] + rest)[1..] == items[1..] + [None] + rest;
      assert nows[..|items|][1..] == nows[1..][..|items| - 1];
      match items[0]
      case None =>
      case Some(item) =>
        DrainStopsAtSentinel(Unpack(e, st, item, nows[0]), st, items[1..], rest, nows[1..]);
    }
  }

  /** Over a whole run the queue only grows and the buffer invariant holds throughout. */
  lemma {:induction false} DrainKeepsInvariant(e: Engine, st: Settings, items: seq<Option<Item>>, nows: seq<int>)
    requires |nows| == |items| && BufferInvariant(e)
    ensures e.outbound <= Drain(e, st, items, nows).outbound
    ensures BufferInvariant(Drain(e, st, items, nows))
    ensures Drain(e, st, items, nows).sendConfig == e.sendConfig
    decreases |items|
  {
    if |items| > 0 && items[0].Some? {
      var e1 := Unpack(e, st, items[0].value, nows[0]);
      UnpackGrows(e, st, items[0].value, nows[0]);
      UnpackKeepsInvariant(e, st, items[0].value, nows[0]);
      DrainKeepsInvariant(e1, st, items[1..], nows[1..]);
    }
  }

  // ---------------------------------------------------------------------------------------
  // The class
  // ---------------------------------------------------------------------------------------

  /**
   * The checker object. Its fields are the state above; each method changes them as the
   * function of the same name says.
   */
  class VeleroChecker {
    const settings: Settings
    var oldSchedules: ScheduleDict
    var oldBackup: Option<BackupSnapshot>
    var lastSend: int
    var clusterName: Option<string>
    var forceAlive: bool
    var sendConfig: bool
    var finalMessage: string
    var uniqueMessage: bool
    var outbound: seq<string>

    function State(): Engine
      reads this
    {
      Engine(oldSchedules, oldBackup, lastSend, clusterName, forceAlive, sendConfig,
             finalMessage, uniqueMessage, outbound)
    }

    constructor (settings: Settings, now: int)
      ensures this.settings == settings && State() == Initial(now)
    {
      this.settings := settings;
      oldSchedules := [];
      oldBackup := None;
      lastSend := now;
      clusterName := Some("");
      forceAlive := false;
      sendConfig := false;
      finalMessage := "";
      uniqueMessage := false;
      outbound := [];
    }

    method SendToDispatcher(message: string, now: int)
      modifies this
      ensures State() == Send(old(State()), message, now)
    {
      if |message| > 0 {
        if !uniqueMessage {
          lastSend := now;
          outbound := outbound + [message];
        } else if |finalMessage| > 0 {
          finalMessage := finalMessage + Divider + message;
        } else {
          finalMessage := message;
        }
      }
    }

    method SendToDispatcherSummary(now: int)
      modifies this
      ensures State() == Summary(old(State()), now)
    {
      if |finalMessage| > 10 {
        finalMessage := SummaryText(finalMessage);
        lastSend := now;
        outbound := outbound + [finalMessage];
      }
      finalMessage := "";
      uniqueMessage := false;
    }

    method ProcessScheduleReport(data: ScheduleDict, now: int)
      modifies this
      ensures State() == ScheduleReport(old(State()), data, now)
    {
      if ToMap(oldSchedules) == ToMap(data) {
        return;
      }
      var message := BuildScheduleMessage(oldSchedules, data);
      SendToDispatcher(message, now);
      oldSchedules := data;
    }

    method ProcessLastBackupReport(data: BackupSnapshot, now: int)
      modifies this
      ensures State() == BackupReport(old(State()), settings, data, now)
    {
      ghost var e0 := State();
      if oldBackup == Some(data) {
        return;
      }
      var tally := TallyBackups(data.backups, settings.expiresDaysWarning);
      if tally.None? {
        return;
      }
      var out := ReportText(data, tally.value, settings.expiresDaysWarning);
      assert BackupReport(e0, settings, data, now) == StoreReport(e0, out, data, now);
      StoreBackupReport(out, data, now);
    }

    /** The end of the backup report: a report longer than 10 characters is sent, and the data is kept. */
    method StoreBackupReport(out: string, data: BackupSnapshot, now: int)
      modifies this
      ensures State() == StoreReport(old(State()), out, data, now)
    {
      if |out| > 10 {
        SendToDispatcher(out, now);
      }
      oldBackup := Some(data);
    }

    method SendActiveConfiguration(subTitle: Option<string>, now: int)
      modifies this
      ensures State() == ActiveConfiguration(old(State()), settings, subTitle, now)
    {
      SendToDispatcher(ConfigurationText(settings, subTitle), now);
    }

    method ProcessClusterName(name: Option<string>, now: int)
      modifies this
      ensures State() == ClusterNameReport(old(State()), settings, name, now)
    {
      if name.Some? {
        if sendConfig {
          SendToDispatcher("Cluster name= " + name.value, now);
        } else {
          SendActiveConfiguration(Some("Cluster name= " + name.value), now);
        }
      }
      clusterName := name;
    }

    method UnpackData(item: Item, now: int)
      modifies this
      ensures State() == Unpack(old(State()), settings, item, now)
    {
      if item.Message? {
        DispatchData(item, now);
      }
      SendAliveMessage(now);
    }

    /** The key dispatch of velero_checker.py lines 111-127. */
    method DispatchData(item: Item, now: int)
      requires item.Message?
      modifies this
      ensures State() == Dispatch(old(State()), settings, item, now)
    {
      if item.cluster.Some? {
        ProcessClusterName(item.cluster.value, now);
      } else if item.schedule.Some? {
        ProcessScheduleReport(item.schedule.value, now);
      } else if item.backup.Some? {
        ProcessLastBackupReport(item.backup.value, now);
      } else if item.start {
        uniqueMessage := true;
        finalMessage := "";
      } else if item.end {
        SendToDispatcherSummary(now);
      }
    }

    /** The alive check of velero_checker.py lines 133-144. */
    method SendAliveMessage(now: int)
      modifies this
      ensures State() == Heartbeat(old(State()), settings, now)
    {
      if AliveSeconds(settings) > 0 {
        if now - lastSend > AliveSeconds(settings) || forceAlive {
          SendToDispatcher(AliveText(State(), settings), now);
          forceAlive := false;
        }
      }
    }

    /**
     * `run`: `items` is what the queue yields in turn, `None` being the stop signal, and
     * `nows[i]` the clock while item `i` is handled.
     */
    method Run(items: seq<Option<Item>>, nows: seq<int>, start: int)
      requires |nows| == |items|
      modifies this
      ensures State() == RunOf(old(State()), settings, items, nows, start)
    {
      if sendConfig {
        SendActiveConfiguration(None, start);
      }
      ghost var first := State();
      var i := 0;
      while i < |items|
        invariant 0 <= i <= |items|
        invariant Drain(first, settings, items, nows) == Drain(State(), settings, items[i..], nows[i..])
        decreases |items| - i
      {
        var item := items[i];
        if item.None? {
          return;
        }
        assert items[i..][1..] == items[i + 1..] && nows[i..][1..] == nows[i + 1..];
        UnpackData(item.value, nows[i]);
        i := i + 1;
      }
    }
  }
}
