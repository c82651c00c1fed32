/**
 * `VeleroStatus`: what the watchdog reads from the cluster. The Kubernetes listings are
 * inputs; the model covers how the schedule listing is turned into a dictionary of schedules,
 * how the backup listing is resolved to the last backup of every schedule (plus every backup
 * without a schedule), and which namespaces no schedule covers.
 *
 * Each operation that the source can abort with an exception returns an Option; `None` stands
 * for "an exception left the method".
 */
module Status {
  import opened Wrappers
  import opened Text
  import opened Dicts
  import opened Expiry

  // ---------------------------------------------------------------------------------------
  // Schedules
  // ---------------------------------------------------------------------------------------

  /**
   * One schedule as reported: `None` for the fs-backup flag is the `[]` the source puts there
   * when the template does not set it.
   */
  datatype ScheduleRecord = ScheduleRecord(
    includedNamespaces: seq<string>,
    includedResources: seq<string>,
    defaultVolumesToFsBackup: Option<bool>,
    cronTime: string)

  /** `{schedule_name: {...}}` in listing order. */
  type ScheduleDict = Dict<string, ScheduleRecord>

  /** The parts of a schedule object the source reads; `None` is a key that is absent. */
  datatype RawTemplate = RawTemplate(
    includedNamespaces: Option<seq<string>>,
    defaultVolumesToFsBackup: Option<bool>)

  datatype RawScheduleSpec = RawScheduleSpec(
    schedule: Option<string>,
    includedResources: Option<seq<string>>,
    template: Option<RawTemplate>)

  datatype RawSchedule = RawSchedule(name: Option<string>, spec: Option<RawScheduleSpec>)

  /**
   * `_extract_resources_from_schedule`. A missing name, or a spec without `schedule` or
   * `template`, raises inside the `try`; the handler only logs, so the method returns None,
   * which is what `None` here stands for.
   */
  function ExtractResources(s: RawSchedule): (r: Option<(string, ScheduleRecord)>)
    ensures r.Some? <==>
              s.name.Some? && (s.spec.Some? ==> s.spec.value.schedule.Some? && s.spec.value.template.Some?)
    ensures r.Some? ==> r.value.0 == s.name.value
    ensures r.Some? && s.spec.None? ==> r.value.1 == ScheduleRecord([], [], None, "")
    ensures r.Some? && s.spec.Some? ==>
              && r.value.1.cronTime == s.spec.value.schedule.value
              && r.value.1.includedResources == GetOr(s.spec.value.includedResources, [])
              && r.value.1.includedNamespaces == GetOr(s.spec.value.template.value.includedNamespaces, [])
              && r.value.1.defaultVolumesToFsBackup == s.spec.value.template.value.defaultVolumesToFsBackup
  {
    if s.name.None? then None
    else if s.spec.None? then Some((s.name.value, ScheduleRecord([], [], None, "")))
    else
      var spec := s.spec.value;
      if spec.schedule.None? || spec.template.None? then None
      else
        Some((s.name.value, ScheduleRecord(
          GetOr(spec.template.value.includedNamespaces, []),
          GetOr(spec.includedResources, []),
          spec.template.value.defaultVolumesToFsBackup,
          spec.schedule.value)))
  }

  /**
   * What `get_k8s_velero_schedules` builds from the listing: each schedule stored under its
   * name, a later schedule of the same name replacing the earlier value. A None from
   * `_extract_resources_from_schedule` makes the tuple unpacking raise.
   */
  function SchedulesOf(items: seq<RawSchedule>): Option<ScheduleDict>
    decreases |items|
  {
    if |items| == 0 then Some([])
    else
      match SchedulesOf(items[..|items| - 1])
      case None => None
      case Some(d) =>
        match ExtractResources(items[|items| - 1])
        case None => None
        case Some(p) => Some(Put(d, p.0, p.1))
  }

  /** The loop of `get_k8s_velero_schedules` over the listing's items. */
  method GetSchedules(items: seq<RawSchedule>) returns (r: Option<ScheduleDict>)
    ensures r == SchedulesOf(items)
  {
    var schedules: ScheduleDict := [];
    for i := 0 to |items|
      invariant SchedulesOf(items[..i]) == Some(schedules)
    {
      assert items[..i + 1][..i] == items[..i];
      var extracted := ExtractResources(items[i]);
      if extracted.None? {
        SchedulesOfFails(items, i + 1);
        return None;
      }
      var (name, record) := extracted.value;
      schedules := Put(schedules, name, record);
    }
    assert items[..|items|] == items;
    return Some(schedules);
  }

  /** Once the fold has failed on a prefix, it fails on the whole listing. */
  lemma {:induction false} SchedulesOfFails(items: seq<RawSchedule>, n: nat)
    requires n <= |items| && SchedulesOf(items[..n]).None?
    ensures SchedulesOf(items).None?
    decreases |items| - n
  {
    if n < |items| {
      assert items[..n + 1][..n] == items[..n];
      SchedulesOfFails(items, n + 1);
    } else {
      assert items[..n] == items;
    }
  }

  /** The listing yields a dictionary exactly when every schedule in it can be read. */
  lemma {:induction false} SchedulesOfSucceeds(items: seq<RawSchedule>)
    ensures SchedulesOf(items).Some? <==> forall s :: s in items ==> ExtractResources(s).Some?
    decreases |items|
  {
    if |items| > 0 {
      var init := items[..|items| - 1];
      SchedulesOfSucceeds(init);
      InInitOrLast(items);
    }
  }

  /** One step of the fold on a listing that yields a dictionary. */
  lemma SchedulesOfStep(items: seq<RawSchedule>, d: ScheduleDict)
    requires |items| > 0 && SchedulesOf(items) == Some(d)
    ensures SchedulesOf(items[..|items| - 1]).Some? && ExtractResources(items[|items| - 1]).Some?
    ensures d == Put(SchedulesOf(items[..|items| - 1]).value,
                     ExtractResources(items[|items| - 1]).value.0,
                     ExtractResources(items[|items| - 1]).value.1)
  {
  }

  /** The dictionary has one key per schedule name of the listing. */
  lemma {:induction false} SchedulesOfKeys(items: seq<RawSchedule>, d: ScheduleDict, k: string)
    requires SchedulesOf(items) == Some(d)
    ensures k in Keys(d) <==> exists s :: s in items && s.name == Some(k)
    decreases |items|
  {
    if |items| > 0 {
      var init := items[..|items| - 1];
      SchedulesOfStep(items, d);
      SchedulesOfKeys(init, SchedulesOf(init).value, k);
      SchedulesOfKeysStep(items, d, k);
    }
  }

  lemma SchedulesOfKeysStep(items: seq<RawSchedule>, d: ScheduleDict, k: string)
    requires |items| > 0 && SchedulesOf(items) == Some(d)
    requires var d0 := SchedulesOf(items[..|items| - 1]);
               d0.Some? && (k in Keys(d0.value) <==> exists s :: s in items[..|items| - 1] && s.name == Some(k))
    ensures k in Keys(d) <==> exists s :: s in items && s.name == Some(k)
  {
    var init := items[..|items| - 1];
    var last := items[|items| - 1];
    SchedulesOfStep(items, d);
    InInitOrLast(items);
    PutNamed(SchedulesOf(init).value, ExtractResources(last).value, init, last, k);
  }

  /** Storing the record of one more schedule adds exactly that schedule's name to the keys. */
  lemma PutNamed(d0: ScheduleDict, q: (string, ScheduleRecord), init: seq<RawSchedule>, last: RawSchedule, k: string)
    requires k in Keys(d0) <==> exists s :: s in init && s.name == Some(k)
    requires last.name == Some(q.0)
    ensures k in Keys(Put(d0, q.0, q.1)) <==> exists s :: (s in init || s == last) && s.name == Some(k)
  {
    if exists s :: (s in init || s == last) && s.name == Some(k) {
      var s :| (s in init || s == last) && s.name == Some(k);
      if s != last { assert s in init; } else { assert q.0 == k; }
    }
  }

  /** Each key holds the record of the last schedule of that name in the listing. */
  lemma {:induction false} SchedulesOfLastWins(items: seq<RawSchedule>, d: ScheduleDict, p: (string, ScheduleRecord))
    requires SchedulesOf(items) == Some(d) && p in d
    ensures exists i :: LastOfName(items, i, p)
    decreases |items|
  {
    var init := items[..|items| - 1];
    SchedulesOfStep(items, d);
    var d0 := SchedulesOf(init).value;
    var q := ExtractResources(items[|items| - 1]).value;
    if p == q {
      assert LastOfName(items, |items| - 1, p);
    } else {
      assert p in d0 && p.0 != q.0 by {
        if p.0 == q.0 {
          SameKeySamePair(d, p, q);
        }
      }
      SchedulesOfLastWins(init, d0, p);
      var i :| LastOfName(init, i, p);
      LastOfNameExtends(items, i, p);
    }
  }

  /** `items[i]` yields the pair `p` and no later schedule has its name. */
  ghost predicate LastOfName(items: seq<RawSchedule>, i: int, p: (string, ScheduleRecord))
  {
    && 0 <= i < |items| && ExtractResources(items[i]) == Some(p)
    && forall j :: i < j < |items| ==> items[j].name != Some(p.0)
  }

  lemma LastOfNameExtends(items: seq<RawSchedule>, i: int, p: (string, ScheduleRecord))
    requires |items| > 0 && LastOfName(items[..|items| - 1], i, p)
    requires ExtractResources(items[|items| - 1]).Some?
    requires ExtractResources(items[|items| - 1]).value.0 != p.0
    ensures LastOfName(items, i, p)
  {
    var init := items[..|items| - 1];
    assert items[i] == init[i];
    forall j | i < j < |items| ensures items[j].name != Some(p.0) {
      if j < |init| { assert items[j] == init[j]; }
    }
  }

  // ---------------------------------------------------------------------------------------
  // Namespace coverage
  // ---------------------------------------------------------------------------------------

  /** The concatenation of every schedule's `included_namespaces`, in dictionary order. */
  function NamespacesOf(d: seq<(string, ScheduleRecord)>): seq<string>
    decreases |d|
  {
    if |d| == 0 then [] else NamespacesOf(d[..|d| - 1]) + d[|d| - 1].1.includedNamespaces
  }

  /** A namespace is in the concatenation exactly when some schedule includes it. */
  lemma {:induction false} NamespacesOfCovers(d: seq<(string, ScheduleRecord)>, x: string)
    ensures x in NamespacesOf(d) <==> exists p :: p in d && x in p.1.includedNamespaces
    decreases |d|
  {
    if |d| > 0 {
      var init := d[..|d| - 1];
      NamespacesOfCovers(init, x);
      assert d == init + [d[|d| - 1]];
      if exists p :: p in d && x in p.1.includedNamespaces {
        var p :| p in d && x in p.1.includedNamespaces;
        if p != d[|d| - 1] { assert p in init; }
      }
    }
  }

  /** `_get_scheduled_namespaces`: the loop that accumulates `all_ns`. */
  method ScheduledNamespaces(schedules: ScheduleDict) returns (allNs: seq<string>)
    ensures allNs == NamespacesOf(schedules)
    ensures forall x :: x in allNs <==> exists p :: p in schedules && x in p.1.includedNamespaces
  {
    allNs := [];
    for i := 0 to |schedules|
      invariant allNs == NamespacesOf(schedules[..i])
    {
      assert schedules[..i + 1][..i] == schedules[..i];
      allNs := allNs + schedules[i].1.includedNamespaces;
    }
    assert schedules[..|schedules|] == schedules;
    forall x ensures x in allNs <==> exists p :: p in schedules && x in p.1.includedNamespaces {
      NamespacesOfCovers(schedules, x);
    }
  }

  /** Ascending in Python's string order, hence without duplicates. */
  predicate StrictlySorted(s: seq<string>)
  {
    forall i, j :: 0 <= i < j < |s| ==> LexLess(s[i], s[j])
  }

  /** `x` inserted into an ascending list at its place. */
  function Insert(s: seq<string>, x: string): seq<string>
  {
    if |s| == 0 then [x]
    else if LexLess(x, s[0]) then [x] + s
    else [s[0]] + Insert(s[1..], x)
  }

  /** Inserting an absent name keeps the list ascending and adds exactly that name. */
  lemma {:induction false} InsertSorted(s: seq<string>, x: string)
    requires StrictlySorted(s) && x !in s
    ensures StrictlySorted(Insert(s, x))
    ensures |Insert(s, x)| == |s| + 1
    ensures forall y :: y in Insert(s, x) <==> y == x || y in s
  {
    if |s| == 0 {
    } else if LexLess(x, s[0]) {
      forall j | 0 < j < |s| ensures LexLess(x, s[j]) {
        LexTransitive(x, s[0], s[j]);
      }
      HeadSorted(x, s);
    } else {
      LexTotal(x, s[0]);
      var t := s[1..];
      assert forall j :: 0 <= j < |t| ==> t[j] == s[j + 1];
      InsertSorted(t, x);
      var u := Insert(t, x);
      assert forall y :: y in u ==> LexLess(s[0], y) by {
        forall y | y in u ensures LexLess(s[0], y) {
          if y != x {
            var j :| 0 <= j < |t| && t[j] == y;
            assert s[j + 1] == y;
          }
        }
      }
      HeadSorted(s[0], u);
      assert s == [s[0]] + t;
    }
  }

  /** A head below every element of an ascending tail gives an ascending list. */
  lemma HeadSorted(h: string, t: seq<string>)
    requires StrictlySorted(t)
    requires forall j :: 0 <= j < |t| ==> LexLess(h, t[j])
    ensures StrictlySorted([h] + t)
  {
    var s := [h] + t;
    forall i, j | 0 <= i < j < |s| ensures LexLess(s[i], s[j]) {
      if i == 0 {
        assert s[j] == t[j - 1];
      } else {
        assert s[i] == t[i - 1] && s[j] == t[j - 1];
      }
    }
  }

  /** Two ascending lists with the same elements are the same list: the sort is determined. */
  lemma {:induction false} SortedUnique(a: seq<string>, b: seq<string>)
    requires StrictlySorted(a) && StrictlySorted(b)
    requires forall x :: x in a <==> x in b
    ensures a == b
    decreases |a|
  {
    assert |a| > 0 ==> a[0] in a;
    assert |b| > 0 ==> b[0] in b;
    if |a| > 0 && |b| > 0 {
      assert a[0] == b[0] by {
        if a[0] != b[0] {
          var i :| 0 <= i < |b| && b[i] == a[0];
          var j :| 0 <= j < |a| && a[j] == b[0];
          assert i > 0 && j > 0;
          assert LexLess(b[0], b[i]);
          LexAsymmetric(a[0], a[j]);
        }
      }
      var ta, tb := a[1..], b[1..];
      forall x ensures x in ta <==> x in tb {
        if x in ta {
          var i :| 0 <= i < |ta| && ta[i] == x;
          assert LexLess(a[0], a[i + 1]);
          LexIrreflexive(x);
          assert x in b && x != b[0];
        }
        if x in tb {
          var i :| 0 <= i < |tb| && tb[i] == x;
          assert LexLess(b[0], b[i + 1]);
          LexIrreflexive(x);
          assert x in a && x != a[0];
        }
      }
      SortedUnique(ta, tb);
      assert a == [a[0]] + ta && b == [b[0]] + tb;
    }
  }

  /**
   * `_get_unscheduled_namespaces` once both listings are known:
   * `sorted(set(namespaces) - set(included))` with its length and the number of namespaces.
   */
  method UnscheduledNamespaces(namespaces: seq<string>, included: seq<string>)
    returns (difference: seq<string>, counter: int, counterAll: int)
    ensures StrictlySorted(difference)
    ensures forall x :: x in difference <==> x in namespaces && x !in included
    ensures counter == |difference| && counterAll == |namespaces|
    ensures counter <= counterAll
  {
    difference := [];
    for i := 0 to |namespaces|
      invariant StrictlySorted(difference)
      invariant forall x :: x in difference <==> x in namespaces[..i] && x !in included
      invariant |difference| <= i
    {
      assert namespaces[..i + 1] == namespaces[..i] + [namespaces[i]];
      var ns := namespaces[i];
      if ns !in included && ns !in difference {
        InsertSorted(difference, ns);
        difference := Insert(difference, ns);
      }
    }
    assert namespaces[..|namespaces|] == namespaces;
    counter := |difference|;
    counterAll := |namespaces|;
  }

  /** `{'difference': ..., 'counter': ..., 'counter_all': ...}` */
  datatype Coverage = Coverage(difference: seq<string>, counter: int, counterAll: int)

  /** What `_get_unscheduled_namespaces` promises of its result. */
  ghost predicate IsCoverage(c: Coverage, namespaces: seq<string>, included: seq<string>)
  {
    && StrictlySorted(c.difference)
    && (forall x :: x in c.difference <==> x in namespaces && x !in included)
    && c.counter == |c.difference| && c.counterAll == |namespaces|
    && c.counter <= c.counterAll
  }

  /** The coverage of two listings is determined by them. */
  lemma CoverageUnique(c1: Coverage, c2: Coverage, namespaces: seq<string>, included: seq<string>)
    requires IsCoverage(c1, namespaces, included) && IsCoverage(c2, namespaces, included)
    ensures c1 == c2
  {
    SortedUnique(c1.difference, c2.difference);
  }

  /**
   * All of `_get_unscheduled_namespaces`: the namespace listing, and the schedule listing
   * that `_get_scheduled_namespaces` fetches again. None when that fetch raised.
   */
  method Unscheduled(namespaces: seq<string>, scheduleItems: seq<RawSchedule>) returns (r: Option<Coverage>)
    ensures r.None? <==> SchedulesOf(scheduleItems).None?
    ensures r.Some? ==> IsCoverage(r.value, namespaces, NamespacesOf(SchedulesOf(scheduleItems).value))
  {
    var schedules := GetSchedules(scheduleItems);
    if schedules.None? {
      return None;
    }
    var included := ScheduledNamespaces(schedules.value);
    var difference, counter, counterAll := UnscheduledNamespaces(namespaces, included);
    return Some(Coverage(difference, counter, counterAll));
  }

  // ---------------------------------------------------------------------------------------
  // Last backup of every schedule
  // ---------------------------------------------------------------------------------------

  /**
   * One item of the backup listing. `labels` is None when the metadata has no labels map (the
   * source then calls `.get` on None); `status` is None when the object has no status at all.
   * Status values are kept as the text they print as. `daysToExpiry` is the whole number of
   * days from now to the `expiration` timestamp, or None when that timestamp does not parse:
   * the date arithmetic and the clock are not modelled.
   */
  datatype RawBackup = RawBackup(
    name: string,
    labels: Option<map<string, string>>,
    status: Option<map<string, string>>,
    daysToExpiry: Option<int>)

  /** The record the source stores for a retained backup. */
  datatype BackupEntry = BackupEntry(
    backupName: string,
    phase: string,
    errors: string,
    warnings: string,
    timeExpires: string,
    schedule: Option<string>,
    completionTimestamp: string,
    expire: string)

  /** The `OrderedDict` of retained backups, keyed by backup name. */
  type View = Dict<string, BackupEntry>

  const ScheduleLabel: string := "velero.io/schedule-name"

  /** `m.get(k, default)` */
  function Lookup(m: map<string, string>, k: string, default: string): string
  {
    if k in m then m[k] else default
  }

  /** The schedule label when it is present and non-empty (an empty label is falsy). */
  function BackupSchedule(b: RawBackup): Option<string>
  {
    if b.labels.Some? && ScheduleLabel in b.labels.value && b.labels.value[ScheduleLabel] != ""
    then Some(b.labels.value[ScheduleLabel])
    else None
  }

  /** `backup['status'] != {}` */
  predicate HasStatus(b: RawBackup)
  {
    b.status.Some? && b.status.value != map[]
  }

  /**
   * The record built for a backup with a status (velero_status.py lines 102-124). None
   * where the source raises: the metadata has no labels map, the object has no status, or it
   * has a phase but no parseable `expiration` (`strptime` of the "N/A" default raises too).
   */
  function EntryOf(b: RawBackup): (r: Option<BackupEntry>)
    ensures r.None? <==>
              || b.labels.None? || b.status.None?
              || ("phase" in b.status.value && ("expiration" !in b.status.value || b.daysToExpiry.None?))
    ensures r.Some? ==> r.value.backupName == b.name && r.value.schedule == BackupSchedule(b)
    ensures r.Some? ==> r.value.phase == Lookup(b.status.value, "phase", "")
    ensures r.Some? ==>
              && r.value.errors == Lookup(b.status.value, "errors", "[]")
              && r.value.warnings == Lookup(b.status.value, "warnings", "[]")
              && r.value.completionTimestamp == Lookup(b.status.value, "completionTimestamp", "N/A")
  {
    if b.labels.None? || b.status.None? then None
    else
      var st := b.status.value;
      var errors := Lookup(st, "errors", "[]");
      var warnings := Lookup(st, "warnings", "[]");
      var completion := Lookup(st, "completionTimestamp", "N/A");
      if "phase" in st then
        if "expiration" !in st || b.daysToExpiry.None? then None
        else
          Some(BackupEntry(b.name, st["phase"], errors, warnings, st["expiration"], BackupSchedule(b),
                           completion, DayCountText(b.daysToExpiry.value)))
      else
        Some(BackupEntry(b.name, "", errors, warnings, "", BackupSchedule(b), completion,
                         if "progress" in st then "in progress" else "N/A"))
  }

  /**
   * Every expiry text a record can carry parses without raising: a day count, "in progress"
   * or "N/A". So the checker's day parse never fails on a report built from resolution.
   */
  lemma EntryExpiryParses(b: RawBackup)
    requires EntryOf(b).Some?
    ensures ExtractDays(EntryOf(b).value.expire) != Raises
  {
    var st := b.status.value;
    if "phase" in st {
      DayCountRoundTrip(b.daysToExpiry.value);
    } else {
      InProgressHasNoDays();
      NotAvailableHasNoDays();
    }
  }

  /**
   * On every expiry text a record can carry, the day parse as the source writes it agrees with
   * the intended one: none of them starts with white space.
   */
  lemma EntryExpiryAsWritten(b: RawBackup)
    requires EntryOf(b).Some?
    ensures ExtractDaysAsWritten(EntryOf(b).value.expire) == ExtractDays(EntryOf(b).value.expire)
  {
    var st := b.status.value;
    if "phase" in st {
      DayCountRoundTrip(b.daysToExpiry.value);
    } else {
      assert !IsSpace('i') && !IsSpace('N');
      AsWrittenAgrees("in progress");
      AsWrittenAgrees("N/A");
    }
  }

  /**
   * The position of the first retained backup of schedule `s` (the `next(...)` of velero_status.py line 131),
   * or -1 when there is none (`schedule_name not in schedules`).
   */
  function SameScheduleIndex(v: View, s: string): (i: int)
    ensures -1 <= i < |v|
    ensures i == -1 <==> forall j :: 0 <= j < |v| ==> v[j].1.schedule != Some(s)
    ensures 0 <= i ==> v[i].1.schedule == Some(s) && forall j :: 0 <= j < i ==> v[j].1.schedule != Some(s)
  {
    FirstSchedule(v, s, 0)
  }

  function FirstSchedule(v: View, s: string, from: nat): (i: int)
    requires from <= |v|
    ensures i == -1 || from <= i < |v|
    ensures i == -1 <==> forall j :: from <= j < |v| ==> v[j].1.schedule != Some(s)
    ensures 0 <= i ==> v[i].1.schedule == Some(s) && forall j :: from <= j < i ==> v[j].1.schedule != Some(s)
    decreases |v| - from
  {
    if from == |v| then -1
    else if v[from].1.schedule == Some(s) then from
    else FirstSchedule(v, s, from + 1)
  }

  /**
   * velero_status.py lines 137-153 once the record `e` exists: an unscheduled backup, or the first backup of
   * its schedule, is stored; a backup with a greater name than the stored one of its schedule
   * replaces it (deleted, then inserted afresh at the end); otherwise nothing changes.
   */
  function Place(v: View, name: string, e: BackupEntry): View
  {
    match e.schedule
    case None => Put(v, name, e)
    case Some(s) =>
      var i := SameScheduleIndex(v, s);
      if i == -1 then Put(v, name, e)
      else if LexLess(v[i].1.backupName, name) then Put(Delete(v, v[i].0), name, e)
      else v
  }

  /** One turn of the loop of `_get_k8s_last_backup_status`; None where it raises. */
  function Retain(v: View, b: RawBackup): Option<View>
  {
    if b.labels.None? || b.status.None? then None
    else if b.status.value == map[] then Some(v)
    else
      match EntryOf(b)
      case None => None
      case Some(e) => Some(Place(v, b.name, e))
  }

  /** The view after the whole listing. */
  function Resolved(xs: seq<RawBackup>): Option<View>
    decreases |xs|
  {
    if |xs| == 0 then Some([])
    else
      match Resolved(xs[..|xs| - 1])
      case None => None
      case Some(v) => Retain(v, xs[|xs| - 1])
  }

  /** At most one retained backup per schedule name. */
  ghost predicate OnePerSchedule(v: View)
  {
    forall p, q :: p in v && q in v && p.1.schedule.Some? && p.1.schedule == q.1.schedule ==> p == q
  }

  /** `_get_k8s_last_backup_status`: the loop over the listing, with its `del` and insert. */
  method ResolveLastBackups(listing: seq<RawBackup>) returns (r: Option<View>)
    ensures r == Resolved(listing)
    ensures r.Some? ==> OnePerSchedule(r.value)
  {
    var view: View := [];
    for i := 0 to |listing|
      invariant Resolved(listing[..i]) == Some(view)
      invariant OnePerSchedule(view)
    {
      assert listing[..i + 1][..i] == listing[..i];
      var b := listing[i];
      if b.labels.None? || b.status.None? {
        ResolvedFails(listing, i + 1);
        return None;
      }
      if b.status.value != map[] {
        var entry := EntryOf(b);
        if entry.None? {
          ResolvedFails(listing, i + 1);
          return None;
        }
        ghost var before := view;
        view := StoreBackup(view, b.name, entry.value);
        PlaceKeepsOne(before, b.name, entry.value);
      }
    }
    assert listing[..|listing|] == listing;
    return Some(view);
  }

  /**
   * velero_status.py lines 126-153 for a backup whose record `e` is built: look up the stored backup of the
   * same schedule, then delete and insert as `Place` says.
   */
  method StoreBackup(view: View, name: string, e: BackupEntry) returns (r: View)
    ensures r == Place(view, name, e)
  {
    var scheduleName := e.schedule;
    var same := -1;
    if scheduleName.Some? {
      var j := 0;
      while j < |view| && same == -1
        invariant 0 <= j <= |view|
        invariant same == -1 ==> forall k :: 0 <= k < j ==> view[k].1.schedule != scheduleName
        invariant same != -1 ==> same == SameScheduleIndex(view, scheduleName.value)
      {
        if view[j].1.schedule == scheduleName {
          same := j;
        }
        j := j + 1;
      }
    }
    r := view;
    if scheduleName.None? || same == -1 || LexLess(view[same].1.backupName, name) {
      if same != -1 {
        r := Delete(r, view[same].0);
      }
      r := Put(r, name, e);
    }
  }

  /** Once a prefix raises, the whole listing does. */
  lemma {:induction false} ResolvedFails(xs: seq<RawBackup>, n: nat)
    requires n <= |xs| && Resolved(xs[..n]).None?
    ensures Resolved(xs).None?
    decreases |xs| - n
  {
    if n < |xs| {
      assert xs[..n + 1][..n] == xs[..n];
      ResolvedFails(xs, n + 1);
    } else {
      assert xs[..n] == xs;
    }
  }

  /** Placing a backup never gives a schedule a second entry. */
  lemma PlaceKeepsOne(v: View, name: string, e: BackupEntry)
    requires OnePerSchedule(v)
    ensures OnePerSchedule(Place(v, name, e))
  {
    if e.schedule.Some? {
      var s := e.schedule.value;
      var i := SameScheduleIndex(v, s);
      if i != -1 && LexLess(v[i].1.backupName, name) {
        var d := Delete(v, v[i].0);
        assert forall p :: p in d ==> p.1.schedule != Some(s);
      } else if i == -1 {
        forall p | p in v ensures p.1.schedule != Some(s) {
          var j :| 0 <= j < |v| && v[j] == p;
        }
      }
    }
  }

  // ---------------------------------------------------------------------------------------
  // What the resolved view holds, for a listing with distinct backup names
  // ---------------------------------------------------------------------------------------

  /** Kubernetes object names are unique within a namespace. */
  ghost predicate UniqueNames(xs: seq<RawBackup>)
  {
    forall i, j :: 0 <= i < j < |xs| ==> xs[i].name != xs[j].name
  }

  ghost predicate KeyedByName(v: View)
  {
    forall p :: p in v ==> p.0 == p.1.backupName
  }

  /** Every retained entry is the record of a backup of the listing that has a status. */
  ghost predicate FromListing(v: View, xs: seq<RawBackup>)
  {
    forall p :: p in v ==> exists b :: b in xs && HasStatus(b) && b.name == p.0 && EntryOf(b) == Some(p.1)
  }

  /** No backup of a schedule has a greater name than the one retained for it. */
  ghost predicate Latest(v: View, xs: seq<RawBackup>)
  {
    forall p, b :: p in v && b in xs && HasStatus(b) && p.1.schedule.Some? && BackupSchedule(b) == p.1.schedule
      ==> b.name == p.0 || LexLess(b.name, p.0)
  }

  /** Every schedule that has a backup with a status has a retained entry. */
  ghost predicate Covered(v: View, xs: seq<RawBackup>)
  {
    forall b :: b in xs && HasStatus(b) && BackupSchedule(b).Some? ==>
      exists p :: p in v && p.1.schedule == BackupSchedule(b)
  }

  /** Every unscheduled backup with a status is retained with its own record. */
  ghost predicate AdHocKept(v: View, xs: seq<RawBackup>)
  {
    forall b :: b in xs && HasStatus(b) && BackupSchedule(b).None? ==>
      EntryOf(b).Some? && (b.name, EntryOf(b).value) in v
  }

  ghost predicate Inv(v: View, xs: seq<RawBackup>)
  {
    && KeyedByName(v) && OnePerSchedule(v) && FromListing(v, xs)
    && Latest(v, xs) && Covered(v, xs) && AdHocKept(v, xs)
  }

  /** A name that no earlier backup has is not a key of the view. */
  lemma FreshName(v: View, xs: seq<RawBackup>, b: RawBackup)
    requires FromListing(v, xs) && UniqueNames(xs + [b])
    ensures forall p :: p in v ==> p.0 != b.name
    ensures b.name !in Keys(v)
  {
    forall p | p in v ensures p.0 != b.name {
      var c :| c in xs && HasStatus(c) && c.name == p.0 && EntryOf(c) == Some(p.1);
      var i :| 0 <= i < |xs| && xs[i] == c;
      assert (xs + [b])[i] == c && (xs + [b])[|xs|] == b;
    }
    KeyPresent(v, b.name);
  }

  /** A backup without a status leaves the view as it is. */
  lemma SkipKeepsInv(v: View, xs: seq<RawBackup>, b: RawBackup)
    requires Inv(v, xs) && !HasStatus(b)
    ensures Inv(v, xs + [b])
  {
    assert forall c :: c in xs ==> c in xs + [b];
  }

  /** An unscheduled backup, or the first of its schedule, is appended. */
  lemma AppendKeepsInv(v: View, xs: seq<RawBackup>, b: RawBackup, e: BackupEntry)
    requires Inv(v, xs) && UniqueNames(xs + [b])
    requires HasStatus(b) && EntryOf(b) == Some(e)
    requires e.schedule.Some? ==> forall p :: p in v ==> p.1.schedule != e.schedule
    ensures Inv(Put(v, b.name, e), xs + [b])
  {
    FreshName(v, xs, b);
    var w := Put(v, b.name, e);
    var ys := xs + [b];
    assert forall p :: p in w <==> p in v || p == (b.name, e);
    assert forall c :: c in ys <==> c in xs || c == b;
    AddedKeyed(v, w, (b.name, e));
    AddedOne(v, w, (b.name, e));
    AddedFromListing(v, xs, w, b, e);
    AppendLatest(v, xs, w, b, e);
    AddedCovered(v, xs, w, b, e);
    AddedAdHoc(v, xs, w, b, e);
  }

  lemma AddedKeyed(v: View, w: View, n: (string, BackupEntry))
    requires KeyedByName(v) && n.0 == n.1.backupName
    requires forall p :: p in w ==> p in v || p == n
    ensures KeyedByName(w)
  {
  }

  lemma AddedOne(v: View, w: View, n: (string, BackupEntry))
    requires OnePerSchedule(v)
    requires n.1.schedule.Some? ==> forall p :: p in v ==> p.1.schedule != n.1.schedule
    requires forall p :: p in w ==> p in v || p == n
    ensures OnePerSchedule(w)
  {
  }

  lemma AddedFromListing(v: View, xs: seq<RawBackup>, w: View, b: RawBackup, e: BackupEntry)
    requires FromListing(v, xs) && HasStatus(b) && EntryOf(b) == Some(e)
    requires forall p :: p in w ==> p in v || p == (b.name, e)
    ensures FromListing(w, xs + [b])
  {
    forall p | p in w
      ensures exists c :: c in xs + [b] && HasStatus(c) && c.name == p.0 && EntryOf(c) == Some(p.1)
    {
      if p == (b.name, e) {
        assert b in xs + [b];
      } else {
        var c :| c in xs && HasStatus(c) && c.name == p.0 && EntryOf(c) == Some(p.1);
        assert c in xs + [b];
      }
    }
  }

  lemma AppendLatest(v: View, xs: seq<RawBackup>, w: View, b: RawBackup, e: BackupEntry)
    requires Latest(v, xs) && Covered(v, xs)
    requires EntryOf(b) == Some(e)
    requires e.schedule.Some? ==> forall p :: p in v ==> p.1.schedule != e.schedule
    requires forall p :: p in w ==> p in v || p == (b.name, e)
    ensures Latest(w, xs + [b])
  {
    forall p, c | p in w && c in xs + [b] && HasStatus(c) && p.1.schedule.Some? && BackupSchedule(c) == p.1.schedule
      ensures c.name == p.0 || LexLess(c.name, p.0)
    {
      if c != b {
        assert c in xs;
        if p == (b.name, e) {
          assert false;
        }
      }
    }
  }

  lemma AddedCovered(v: View, xs: seq<RawBackup>, w: View, b: RawBackup, e: BackupEntry)
    requires Covered(v, xs) && EntryOf(b) == Some(e)
    requires (b.name, e) in w
    requires forall p :: p in v && p.1.schedule != e.schedule ==> p in w
    ensures Covered(w, xs + [b])
  {
    forall c | c in xs + [b] && HasStatus(c) && BackupSchedule(c).Some?
      ensures exists p :: p in w && p.1.schedule == BackupSchedule(c)
    {
      if c != b && BackupSchedule(c) != e.schedule {
        assert c in xs;
        var q :| q in v && q.1.schedule == BackupSchedule(c);
        assert q in w;
      }
    }
  }

  lemma AddedAdHoc(v: View, xs: seq<RawBackup>, w: View, b: RawBackup, e: BackupEntry)
    requires AdHocKept(v, xs) && EntryOf(b) == Some(e) && (b.name, e) in w
    requires forall p :: p in v && p.1.schedule.None? ==> p in w
    ensures AdHocKept(w, xs + [b])
  {
    forall c | c in xs + [b] && HasStatus(c) && BackupSchedule(c).None?
      ensures EntryOf(c).Some? && (c.name, EntryOf(c).value) in w
    {
      if c != b {
        assert c in xs;
        var ec := EntryOf(c).value;
        assert ec.schedule.None?;
        assert (c.name, ec) in v;
      }
    }
  }

  /** A backup with a greater name replaces the stored one of its schedule, at the end. */
  lemma SupersedeKeepsInv(v: View, xs: seq<RawBackup>, b: RawBackup, e: BackupEntry, i: int)
    requires Inv(v, xs) && UniqueNames(xs + [b])
    requires HasStatus(b) && EntryOf(b) == Some(e) && e.schedule.Some?
    requires 0 <= i < |v| && v[i].1.schedule == e.schedule && LexLess(v[i].1.backupName, b.name)
    ensures Inv(Put(Delete(v, v[i].0), b.name, e), xs + [b])
  {
    var stored := v[i];
    assert stored in v;
    var d := Delete(v, stored.0);
    var w := Put(d, b.name, e);
    var ys := xs + [b];
    FreshName(v, xs, b);
    assert forall p :: p in d ==> p in v && p != stored;
    assert forall p :: p in v && p != stored ==> p in d by {
      forall p | p in v && p != stored ensures p in d {
        if p.0 == stored.0 {
          SameKeySamePair(v, p, stored);
        }
      }
    }
    assert forall p :: p in w <==> p in d || p == (b.name, e);
    assert forall p :: p in v && p.1.schedule != e.schedule ==> p in w;
    assert forall p :: p in d ==> p.1.schedule != e.schedule;
    AddedKeyed(v, w, (b.name, e));
    AddedOne(d, w, (b.name, e));
    AddedFromListing(v, xs, w, b, e);
    SupersedeLatest(v, xs, w, b, e, stored);
    AddedCovered(v, xs, w, b, e);
    AddedAdHoc(v, xs, w, b, e);
  }

  lemma SupersedeLatest(v: View, xs: seq<RawBackup>, w: View, b: RawBackup, e: BackupEntry, stored: (string, BackupEntry))
    requires Latest(v, xs) && KeyedByName(v) && EntryOf(b) == Some(e)
    requires stored in v && stored.1.schedule == e.schedule && LexLess(stored.1.backupName, b.name)
    requires forall p :: p in w ==> (p in v && p.1.schedule != e.schedule) || p == (b.name, e)
    ensures Latest(w, xs + [b])
  {
    forall p, c | p in w && c in xs + [b] && HasStatus(c) && p.1.schedule.Some? && BackupSchedule(c) == p.1.schedule
      ensures c.name == p.0 || LexLess(c.name, p.0)
    {
      if c != b {
        assert c in xs;
        if p == (b.name, e) && c.name != stored.0 {
          LexTransitive(c.name, stored.0, b.name);
        }
      }
    }
  }

  /** A backup with a name not greater than the stored one of its schedule is dropped. */
  lemma KeepKeepsInv(v: View, xs: seq<RawBackup>, b: RawBackup, e: BackupEntry, i: int)
    requires Inv(v, xs)
    requires HasStatus(b) && EntryOf(b) == Some(e) && e.schedule.Some?
    requires 0 <= i < |v| && v[i].1.schedule == e.schedule && !LexLess(v[i].1.backupName, b.name)
    ensures Inv(v, xs + [b])
  {
    var ys := xs + [b];
    assert forall c :: c in ys <==> c in xs || c == b;
    assert v[i] in v;
    LexTotal(b.name, v[i].0);
    assert Latest(v, ys);
    assert Covered(v, ys);
  }

  /** One turn of the loop keeps every property of the view. */
  lemma RetainKeepsInv(v: View, xs: seq<RawBackup>, b: RawBackup, w: View)
    requires Inv(v, xs) && UniqueNames(xs + [b]) && Retain(v, b) == Some(w)
    ensures Inv(w, xs + [b])
  {
    if !HasStatus(b) {
      SkipKeepsInv(v, xs, b);
    } else {
      var e := EntryOf(b).value;
      FreshName(v, xs, b);
      match e.schedule
      case None =>
        AppendKeepsInv(v, xs, b, e);
      case Some(s) =>
        var i := SameScheduleIndex(v, s);
        if i == -1 {
          assert forall p :: p in v ==> p.1.schedule != e.schedule by {
            forall p | p in v ensures p.1.schedule != e.schedule {
              var j :| 0 <= j < |v| && v[j] == p;
            }
          }
          AppendKeepsInv(v, xs, b, e);
        } else if LexLess(v[i].1.backupName, b.name) {
          SupersedeKeepsInv(v, xs, b, e, i);
        } else {
          KeepKeepsInv(v, xs, b, e, i);
        }
    }
  }

  /** The view of a listing with distinct names has all the properties above. */
  lemma {:induction false} ResolvedInv(xs: seq<RawBackup>, v: View)
    requires UniqueNames(xs) && Resolved(xs) == Some(v)
    ensures Inv(v, xs)
    decreases |xs|
  {
    if |xs| == 0 {
    } else {
      var init := xs[..|xs| - 1];
      assert xs == init + [xs[|xs| - 1]];
      var v0 := Resolved(init).value;
      ResolvedInv(init, v0);
      RetainKeepsInv(v0, init, xs[|xs| - 1], v);
    }
  }

  /** For each schedule with a backup that has a status, the view retains its greatest-named backup. */
  lemma LatestPerSchedule(xs: seq<RawBackup>, v: View, b: RawBackup)
    requires UniqueNames(xs) && Resolved(xs) == Some(v)
    requires b in xs && HasStatus(b) && BackupSchedule(b).Some?
    ensures exists p :: p in v && p.1.schedule == BackupSchedule(b)
    ensures forall p :: p in v && p.1.schedule == BackupSchedule(b) ==>
              && (exists c :: c in xs && HasStatus(c) && BackupSchedule(c) == BackupSchedule(b) && c.name == p.0)
              && (forall c :: c in xs && HasStatus(c) && BackupSchedule(c) == BackupSchedule(b) ==>
                    c.name == p.0 || LexLess(c.name, p.0))
  {
    ResolvedInv(xs, v);
    forall p | p in v && p.1.schedule == BackupSchedule(b)
      ensures exists c :: c in xs && HasStatus(c) && BackupSchedule(c) == BackupSchedule(b) && c.name == p.0
    {
      var c :| c in xs && HasStatus(c) && c.name == p.0 && EntryOf(c) == Some(p.1);
      assert BackupSchedule(c) == p.1.schedule;
    }
  }

  /** The view holds at most one entry per schedule, for any listing. */
  lemma {:induction false} ResolvedOnePerSchedule(xs: seq<RawBackup>)
    requires Resolved(xs).Some?
    ensures OnePerSchedule(Resolved(xs).value)
    decreases |xs|
  {
    if |xs| > 0 {
      var init := xs[..|xs| - 1];
      var b := xs[|xs| - 1];
      ResolvedOnePerSchedule(init);
      var v := Resolved(init).value;
      if HasStatus(b) {
        PlaceKeepsOne(v, b.name, EntryOf(b).value);
      }
    }
  }

  /** Every unscheduled backup with a status is retained under its own name. */
  lemma UnscheduledKept(xs: seq<RawBackup>, v: View, b: RawBackup)
    requires UniqueNames(xs) && Resolved(xs) == Some(v)
    requires b in xs && HasStatus(b) && BackupSchedule(b).None?
    ensures EntryOf(b).Some? && (b.name, EntryOf(b).value) in v
  {
    ResolvedInv(xs, v);
  }

  /** A backup whose status is empty never appears in the view. */
  lemma EmptyStatusNotRetained(xs: seq<RawBackup>, v: View, b: RawBackup)
    requires UniqueNames(xs) && Resolved(xs) == Some(v)
    requires b in xs && !HasStatus(b)
    ensures b.name !in Keys(v)
  {
    ResolvedInv(xs, v);
    var j :| 0 <= j < |xs| && xs[j] == b;
    forall p | p in v ensures p.0 != b.name {
      var c :| c in xs && HasStatus(c) && c.name == p.0 && EntryOf(c) == Some(p.1);
      var i :| 0 <= i < |xs| && xs[i] == c;
      assert i != j;
    }
    KeyPresent(v, b.name);
  }

  /** A backup that supersedes the stored one of its schedule moves to the end of the ordering. */
  lemma SupersedeMovesToEnd(v: View, name: string, e: BackupEntry)
    requires e.schedule.Some? && name !in Keys(v)
    requires SameScheduleIndex(v, e.schedule.value) >= 0
    requires LexLess(v[SameScheduleIndex(v, e.schedule.value)].1.backupName, name)
    ensures var i := SameScheduleIndex(v, e.schedule.value);
            Place(v, name, e) == v[..i] + v[i + 1..] + [(name, e)]
  {
    var i := SameScheduleIndex(v, e.schedule.value);
    var d := Delete(v, v[i].0);
    assert name !in Keys(d);
  }

  /** An unscheduled backup, or the first of its schedule, is inserted at the end. */
  lemma NewEntryAppends(v: View, name: string, e: BackupEntry)
    requires name !in Keys(v)
    requires e.schedule.Some? ==> SameScheduleIndex(v, e.schedule.value) == -1
    ensures Place(v, name, e) == v + [(name, e)]
  {
  }

  /** A backup that makes the loop raise. */
  predicate Unreadable(b: RawBackup)
  {
    b.labels.None? || b.status.None? || (HasStatus(b) && EntryOf(b).None?)
  }

  /** The resolution raises exactly when some backup of the listing cannot be read. */
  lemma {:induction false} ResolvedFailsIff(xs: seq<RawBackup>)
    ensures Resolved(xs).None? <==> exists b :: b in xs && Unreadable(b)
    decreases |xs|
  {
    if |xs| > 0 {
      var init := xs[..|xs| - 1];
      var b := xs[|xs| - 1];
      ResolvedFailsIff(init);
      assert xs == init + [b];
      assert forall c :: c in xs <==> c in init || c == b;
      if Resolved(init).Some? {
        assert Retain(Resolved(init).value, b).None? <==> Unreadable(b);
      }
    }
  }

  /** `{'backups': view, 'us_ns': {...}}` */
  datatype BackupSnapshot = BackupSnapshot(backups: View, usNs: Coverage)

  /**
   * `get_k8s_last_backup_status`: the resolved view of the backup listing and the coverage of
   * the namespace listing by the schedule listing.
   */
  method LastBackupStatus(listing: seq<RawBackup>, namespaces: seq<string>, scheduleItems: seq<RawSchedule>)
    returns (r: Option<BackupSnapshot>)
    ensures r.Some? <==> Resolved(listing).Some? && SchedulesOf(scheduleItems).Some?
    ensures r.Some? ==> r.value.backups == Resolved(listing).value
    ensures r.Some? ==> IsCoverage(r.value.usNs, namespaces, NamespacesOf(SchedulesOf(scheduleItems).value))
  {
    var backups := ResolveLastBackups(listing);
    var unscheduled := Unscheduled(namespaces, scheduleItems);
    if backups.None? || unscheduled.None? {
      return None;
    }
    return Some(BackupSnapshot(backups.value, unscheduled.value));
  }
}
