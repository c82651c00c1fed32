/**
 * The items the poll scheduler puts on the queue that the checker reads: a dict holding one of
 * the configured keys (`cluster`, `schedule`, `backup`, `msg_key_start`, `msg_key_end`), or some
 * other object.
 */
module Messages {
  import opened Wrappers
  import opened Status

  /**
   * `Message` is a dict; each field is None when its key is absent. The cluster key's value
   * may itself be None (no cluster name configured). The values of the start and end keys
   * are never read, so only their presence is kept.
   */
  datatype Item =
    | Message(
        cluster: Option<Option<string>>,
        schedule: Option<ScheduleDict>,
        backup: Option<BackupSnapshot>,
        start: bool,
        end: bool)
    | NotDict

  function ClusterItem(name: Option<string>): Item
  {
    Message(Some(name), None, None, false, false)
  }

  function ScheduleItem(schedules: ScheduleDict): Item
  {
    Message(None, Some(schedules), None, false, false)
  }

  function BackupItem(snapshot: BackupSnapshot): Item
  {
    Message(None, None, Some(snapshot), false, false)
  }

  const StartItem: Item := Message(None, None, None, true, false)

  const EndItem: Item := Message(None, None, None, false, true)
}
