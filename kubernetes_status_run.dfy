/**
 * `KubernetesStatusRun.run`: the producer loop. It first queues the cluster name, then runs one
 * iteration per second. Once more than `cycle_seconds` seconds have passed it works through the
 * requests of a cycle, one per iteration: the start marker, the schedule listing, the backup
 * report and the end marker. Then it resets its counters and waits for the next cycle.
 *
 * An iteration is the pure function `StepOf` on the counters. The results of the two listing
 * calls are parameters, and each sleep is one step.
 */
module Scheduler {
  import opened Wrappers
  import opened Status
  import opened Messages

  /** The bound past which the loop counter starts again at 1. */
  const LoopLimit: int := 500000

  /** `seconds_waiting`, `index` (locals of `run`) and `self.loop`. */
  datatype Counters = Counters(secondsWaiting: int, index: int, loop: int)

  /** `disp_msg_key_unique`, `schedule_enable` and `backup_enable` of the configuration. */
  datatype Flags = Flags(unique: bool, scheduleEnable: bool, backupEnable: bool)

  /** What the two listing calls return for one iteration. */
  datatype Fetch = Fetch(schedules: ScheduleDict, backups: BackupSnapshot)

  /** kubernetes_status_run.py lines 75-78: the loop counter advances, wrapping to 1 past the limit. */
  function Wrap(loop: int): (r: int)
    ensures 0 <= loop <= LoopLimit ==> 1 <= r <= LoopLimit
    ensures loop < LoopLimit ==> r == loop + 1
    ensures loop >= LoopLimit ==> r == 1
  {
    if loop + 1 > LoopLimit then 1 else loop + 1
  }

  /** kubernetes_status_run.py lines 83-102: the message of request `index` of a cycle, if its flag is on. */
  function Request(index: int, flags: Flags, fetch: Fetch): Option<Item>
  {
    if index == 0 then (if flags.unique then Some(StartItem) else None)
    else if index == 1 then (if flags.scheduleEnable then Some(ScheduleItem(fetch.schedules)) else None)
    else if index == 2 then (if flags.backupEnable then Some(BackupItem(fetch.backups)) else None)
    else if index == 3 then (if flags.unique then Some(EndItem) else None)
    else None
  }

  /** One iteration of the `while True` loop: the new counters and the message queued, if any. */
  function StepOf(c: Counters, cycleSeconds: int, flags: Flags, fetch: Fetch): (Counters, Option<Item>)
  {
    if c.secondsWaiting <= cycleSeconds then
      (Counters(c.secondsWaiting + 1, c.index, c.loop), None)
    else
      var loop := if c.index == 0 then Wrap(c.loop) else c.loop;
      var sw := if 0 <= c.index <= 3 then c.secondsWaiting else 0;
      if sw > 0 then (Counters(sw + 1, c.index + 1, loop), Request(c.index, flags, fetch))
      else (Counters(sw + 1, 0, loop), None)
  }

  /** The counters the source keeps within their ranges. */
  predicate InRange(c: Counters)
  {
    0 <= c.index <= 4 && 0 <= c.loop <= LoopLimit
  }

  /** `index` stays in 0..4 and `loop` in 0..500000. */
  lemma StepInRange(c: Counters, cycleSeconds: int, flags: Flags, fetch: Fetch)
    requires InRange(c)
    ensures InRange(StepOf(c, cycleSeconds, flags, fetch).0)
  {
  }

  /**
   * `loop` changes exactly on an active iteration at index 0, and then it advances by one or
   * wraps to 1; once it is at least 1 it stays so.
   */
  lemma StepLoop(c: Counters, cycleSeconds: int, flags: Flags, fetch: Fetch)
    ensures var r := StepOf(c, cycleSeconds, flags, fetch).0;
            && (c.secondsWaiting > cycleSeconds && c.index == 0 <==> r.loop == Wrap(c.loop))
            && (!(c.secondsWaiting > cycleSeconds && c.index == 0) ==> r.loop == c.loop)
            && (1 <= c.loop <= LoopLimit ==> 1 <= r.loop <= LoopLimit)
  {
  }

  /**
   * A message is queued only on an active iteration at one of the four requests, and only
   * when its flag is on: a disabled flag never yields its message.
   */
  lemma StepMessage(c: Counters, cycleSeconds: int, flags: Flags, fetch: Fetch)
    ensures var m := StepOf(c, cycleSeconds, flags, fetch).1;
            && (m.Some? <==>
                  c.secondsWaiting > cycleSeconds && c.secondsWaiting > 0 && 0 <= c.index <= 3
                  && (c.index == 0 || c.index == 3 ==> flags.unique)
                  && (c.index == 1 ==> flags.scheduleEnable)
                  && (c.index == 2 ==> flags.backupEnable))
            && (m.Some? ==> m == Request(c.index, flags, fetch))
            && (m == Some(StartItem) || m == Some(EndItem) ==> flags.unique)
            && (m.Some? && m.value.schedule.Some? ==> flags.scheduleEnable && m == Some(ScheduleItem(fetch.schedules)))
            && (m.Some? && m.value.backup.Some? ==> flags.backupEnable && m == Some(BackupItem(fetch.backups)))
  {
  }

  /**
   * Requests 0-3 advance `index` by one whether or not they queued a message; the default case
   * resets both counters, after which the iteration's increment leaves `seconds_waiting` at 1.
   * Every other iteration adds exactly 1 to `seconds_waiting`.
   */
  lemma StepCounters(c: Counters, cycleSeconds: int, flags: Flags, fetch: Fetch)
    requires cycleSeconds >= 0 && InRange(c)
    ensures var r := StepOf(c, cycleSeconds, flags, fetch).0;
            && (c.secondsWaiting > cycleSeconds && c.index <= 3 ==>
                  r.index == c.index + 1 && r.secondsWaiting == c.secondsWaiting + 1)
            && (c.secondsWaiting > cycleSeconds && c.index == 4 ==> r.index == 0 && r.secondsWaiting == 1)
            && (c.secondsWaiting <= cycleSeconds ==>
                  r.index == c.index && r.secondsWaiting == c.secondsWaiting + 1)
  {
  }

  /** What `if data_res: put(data_res)` adds to the queue. */
  function Emitted(m: Option<Item>): seq<Item>
  {
    if m.Some? then [m.value] else []
  }

  /** The messages of a number of iterations, one fetch result per iteration. */
  function StepsOf(c: Counters, cycleSeconds: int, flags: Flags, fetches: seq<Fetch>): (Counters, seq<Item>)
    decreases |fetches|
  {
    if |fetches| == 0 then (c, [])
    else
      var first := StepOf(c, cycleSeconds, flags, fetches[0]);
      var rest := StepsOf(first.0, cycleSeconds, flags, fetches[1..]);
      (rest.0, Emitted(first.1) + rest.1)
  }

  /** Running two stretches of iterations is running them one after the other. */
  lemma {:induction false} StepsAppend(c: Counters, cycleSeconds: int, flags: Flags, f1: seq<Fetch>, f2: seq<Fetch>)
    ensures var s1 := StepsOf(c, cycleSeconds, flags, f1);
            var s2 := StepsOf(s1.0, cycleSeconds, flags, f2);
            StepsOf(c, cycleSeconds, flags, f1 + f2) == (s2.0, s1.1 + s2.1)
    decreases |f1|
  {
    if |f1| == 0 {
      assert f1 + f2 == f2;
      var r2 := StepsOf(c, cycleSeconds, flags, f2);
      assert [] + r2.1 == r2.1;
    } else {
      assert (f1 + f2)[1..] == f1[1..] + f2;
      assert (f1 + f2)[0] == f1[0];
      var first := StepOf(c, cycleSeconds, flags, f1[0]);
      StepsAppend(first.0, cycleSeconds, flags, f1[1..], f2);
      var r1 := StepsOf(first.0, cycleSeconds, flags, f1[1..]);
      var r2 := StepsOf(r1.0, cycleSeconds, flags, f2);
      assert StepsOf(c, cycleSeconds, flags, f1) == (r1.0, Emitted(first.1) + r1.1);
      assert StepsOf(c, cycleSeconds, flags, f1 + f2)
             == (StepsOf(first.0, cycleSeconds, flags, f1[1..] + f2).0,
                 Emitted(first.1) + StepsOf(first.0, cycleSeconds, flags, f1[1..] + f2).1);
      assert StepsOf(first.0, cycleSeconds, flags, f1[1..] + f2) == (r2.0, r1.1 + r2.1);
      assert Emitted(first.1) + (r1.1 + r2.1) == (Emitted(first.1) + r1.1) + r2.1;
    }
  }

  /** The messages of one cycle, in order: start, schedules, backups, end, each if its flag is on. */
  function CycleItems(flags: Flags, schedules: ScheduleDict, backups: BackupSnapshot): seq<Item>
  {
    (if flags.unique then [StartItem] else [])
    + (if flags.scheduleEnable then [ScheduleItem(schedules)] else [])
    + (if flags.backupEnable then [BackupItem(backups)] else [])
    + (if flags.unique then [EndItem] else [])
  }

  /** A stretch of one iteration is that iteration. */
  lemma OneStep(c: Counters, cycleSeconds: int, flags: Flags, f: Fetch)
    ensures var r := StepOf(c, cycleSeconds, flags, f);
            StepsOf(c, cycleSeconds, flags, [f]) == (r.0, Emitted(r.1))
  {
    assert [f][1..] == [];
    var r := StepOf(c, cycleSeconds, flags, f);
    assert Emitted(r.1) + [] == Emitted(r.1);
  }

  /**
   * The five active iterations of a cycle queue the cycle's messages in order and leave the
   * counters reset, with the loop counter advanced.
   */
  lemma ActiveCycle(sw: int, loop: int, cycleSeconds: int, flags: Flags, fetches: seq<Fetch>)
    requires cycleSeconds >= 0 && sw > cycleSeconds && |fetches| == 5
    ensures StepsOf(Counters(sw, 0, loop), cycleSeconds, flags, fetches)
            == (Counters(1, 0, Wrap(loop)), CycleItems(flags, fetches[1].schedules, fetches[2].backups))
  {
    var l := Wrap(loop);
    var f := fetches;
    var c5 := Counters(1, 0, l);
    assert StepOf(Counters(sw, 0, loop), cycleSeconds, flags, f[0]) == (Counters(sw + 1, 1, l), Request(0, flags, f[0]));
    assert StepOf(Counters(sw + 1, 1, l), cycleSeconds, flags, f[1]) == (Counters(sw + 2, 2, l), Request(1, flags, f[1]));
    assert StepOf(Counters(sw + 2, 2, l), cycleSeconds, flags, f[2]) == (Counters(sw + 3, 3, l), Request(2, flags, f[2]));
    assert StepOf(Counters(sw + 3, 3, l), cycleSeconds, flags, f[3]) == (Counters(sw + 4, 4, l), Request(3, flags, f[3]));
    assert StepOf(Counters(sw + 4, 4, l), cycleSeconds, flags, f[4]) == (c5, None);
    OneStep(Counters(sw + 4, 4, l), cycleSeconds, flags, f[4]);
    assert f[4..] == [f[4]] && f[3..][1..] == f[4..] && f[2..][1..] == f[3..] && f[1..][1..] == f[2..];
    var m4 := StepsOf(Counters(sw + 4, 4, l), cycleSeconds, flags, f[4..]);
    assert m4 == (c5, []);
    var m3 := StepsOf(Counters(sw + 3, 3, l), cycleSeconds, flags, f[3..]);
    assert m3 == (c5, Emitted(Request(3, flags, f[3])) + []);
    var m2 := StepsOf(Counters(sw + 2, 2, l), cycleSeconds, flags, f[2..]);
    assert m2 == (c5, Emitted(Request(2, flags, f[2])) + m3.1);
    var m1 := StepsOf(Counters(sw + 1, 1, l), cycleSeconds, flags, f[1..]);
    assert m1 == (c5, Emitted(Request(1, flags, f[1])) + m2.1);
    var m0 := StepsOf(Counters(sw, 0, loop), cycleSeconds, flags, f);
    assert m0 == (c5, Emitted(Request(0, flags, f[0])) + m1.1);
    assert m0.1 == CycleItems(flags, f[1].schedules, f[2].backups);
  }

  /** While fewer than `cycle_seconds` seconds have passed nothing is queued. */
  lemma {:induction false} Waiting(c: Counters, cycleSeconds: int, flags: Flags, fetches: seq<Fetch>)
    requires c.secondsWaiting + |fetches| <= cycleSeconds + 1
    ensures StepsOf(c, cycleSeconds, flags, fetches)
            == (Counters(c.secondsWaiting + |fetches|, c.index, c.loop), [])
    decreases |fetches|
  {
    if |fetches| > 0 {
      var c1 := Counters(c.secondsWaiting + 1, c.index, c.loop);
      assert StepOf(c, cycleSeconds, flags, fetches[0]) == (c1, None);
      Waiting(c1, cycleSeconds, flags, fetches[1..]);
      assert Emitted(None) + [] == [];
    }
  }

  /**
   * A whole period is the five active iterations and `cycle_seconds` waiting ones: it queues
   * the cycle's messages and comes back to where it started, the loop counter advanced.
   */
  lemma Period(loop: int, cycleSeconds: int, flags: Flags, fetches: seq<Fetch>)
    requires cycleSeconds >= 0 && |fetches| == cycleSeconds + 5
    ensures StepsOf(Counters(cycleSeconds + 1, 0, loop), cycleSeconds, flags, fetches)
            == (Counters(cycleSeconds + 1, 0, Wrap(loop)), CycleItems(flags, fetches[1].schedules, fetches[2].backups))
  {
    var active := fetches[..5];
    var rest := fetches[5..];
    assert fetches == active + rest;
    ActiveCycle(cycleSeconds + 1, loop, cycleSeconds, flags, active);
    Waiting(Counters(1, 0, Wrap(loop)), cycleSeconds, flags, rest);
    StepsAppend(Counters(cycleSeconds + 1, 0, loop), cycleSeconds, flags, active, rest);
    assert active[1] == fetches[1] && active[2] == fetches[2];
    var items := CycleItems(flags, fetches[1].schedules, fetches[2].backups);
    assert items + [] == items;
  }

  /**
   * The producer object. The source keeps `seconds_waiting` and `index` as locals of `run`;
   * here they are fields so that one iteration can be a method. `queue` is what has been put on
   * the status queue, oldest first.
   */
  class KubernetesStatusRun {
    const cycleSeconds: int
    const clusterName: Option<string>
    const flags: Flags
    var loop: int
    var secondsWaiting: int
    var index: int
    var queue: seq<Item>

    function CountersOf(): Counters
      reads this
    {
      Counters(secondsWaiting, index, loop)
    }

    constructor (cycleSeconds: int, clusterName: Option<string>, flags: Flags)
      ensures this.cycleSeconds == cycleSeconds && this.clusterName == clusterName && this.flags == flags
      ensures loop == 0 && queue == []
    {
      this.cycleSeconds := cycleSeconds;
      this.clusterName := clusterName;
      this.flags := flags;
      loop := 0;
      secondsWaiting := 0;
      index := 0;
      queue := [];
    }

    /** kubernetes_status_run.py lines 60-69: the counters start so that the first iteration is active, and the cluster name is queued. */
    method Start()
      modifies this
      ensures CountersOf() == Counters(cycleSeconds + 1, 0, old(loop))
      ensures queue == old(queue) + [ClusterItem(clusterName)]
    {
      secondsWaiting := cycleSeconds + 1;
      index := 0;
      queue := queue + [ClusterItem(clusterName)];
    }

    /** One iteration of the loop (kubernetes_status_run.py lines 72-121). */
    method Step(fetch: Fetch)
      modifies this
      ensures var r := StepOf(old(CountersOf()), cycleSeconds, flags, fetch);
              CountersOf() == r.0 && queue == old(queue) + Emitted(r.1)
    {
      var message: Option<Item> := None;
      if secondsWaiting > cycleSeconds {
        if index == 0 {
          loop := loop + 1;
          if loop > LoopLimit {
            loop := 1;
          }
        }
        if 0 <= index <= 3 {
          message := Request(index, flags, fetch);
        } else {
          secondsWaiting := 0;
          index := 0;
        }
        if secondsWaiting > 0 {
          index := index + 1;
          if message.Some? {
            queue := queue + [message.value];
          }
        } else {
          index := 0;
        }
      }
      secondsWaiting := secondsWaiting + 1;
    }

    /**
     * `run` for as many iterations as there are fetch results: the cluster name first, then
     * the messages of the iterations.
     */
    method Run(fetches: seq<Fetch>)
      modifies this
      ensures var r := StepsOf(Counters(cycleSeconds + 1, 0, old(loop)), cycleSeconds, flags, fetches);
              CountersOf() == r.0 && queue == old(queue) + [ClusterItem(clusterName)] + r.1
    {
      Start();
      ghost var c0 := CountersOf();
      ghost var q0 := queue;
      for i := 0 to |fetches|
        invariant var r := StepsOf(c0, cycleSeconds, flags, fetches[..i]);
                  CountersOf() == r.0 && queue == q0 + r.1
      {
        StepsAppend(c0, cycleSeconds, flags, fetches[..i], [fetches[i]]);
        assert fetches[..i + 1] == fetches[..i] + [fetches[i]];
        OneStep(StepsOf(c0, cycleSeconds, flags, fetches[..i]).0, cycleSeconds, flags, fetches[i]);
        Step(fetches[i]);
      }
      assert fetches[..|fetches|] == fetches;
    }
  }

  /** What `run` queues carries the cluster name exactly once, as its first message. */
  lemma ClusterNameFirst(cycleSeconds: int, clusterName: Option<string>, flags: Flags, loop: int, fetches: seq<Fetch>)
    ensures var q := [ClusterItem(clusterName)] + StepsOf(Counters(cycleSeconds + 1, 0, loop), cycleSeconds, flags, fetches).1;
            forall i :: 0 <= i < |q| ==> (q[i].Message? && q[i].cluster.Some? <==> i == 0)
  {
    var ms := StepsOf(Counters(cycleSeconds + 1, 0, loop), cycleSeconds, flags, fetches).1;
    StepsHaveNoCluster(Counters(cycleSeconds + 1, 0, loop), cycleSeconds, flags, fetches);
    var q := [ClusterItem(clusterName)] + ms;
    forall i | 0 < i < |q| ensures q[i] in ms {
      assert q[i] == ms[i - 1];
    }
  }

  /** No iteration queues a cluster-name message. */
  lemma {:induction false} StepsHaveNoCluster(c: Counters, cycleSeconds: int, flags: Flags, fetches: seq<Fetch>)
    ensures forall m :: m in StepsOf(c, cycleSeconds, flags, fetches).1 ==> m.Message? && m.cluster.None?
    decreases |fetches|
  {
    if |fetches| > 0 {
      var first := StepOf(c, cycleSeconds, flags, fetches[0]);
      StepsHaveNoCluster(first.0, cycleSeconds, flags, fetches[1..]);
    }
  }

  /** With a non-negative cycle the very first iteration is active and queues the start marker. */
  lemma FirstStepStarts(cycleSeconds: int, flags: Flags, loop: int, fetch: Fetch)
    requires cycleSeconds >= 0 && flags.unique
    ensures StepOf(Counters(cycleSeconds + 1, 0, loop), cycleSeconds, flags, fetch).1 == Some(StartItem)
  {
  }
}
