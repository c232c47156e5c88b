/**
 * The event record the transform stage works on, and the session-gap constant.
 * Timestamps are whole seconds on one clock; every event carries a user, a time
 * and an event-type label.
 */
module Events {

  /** One row of the events frame: `user_id`, `event_time` (seconds) and `event_type`. */
  datatype Event = Event(user: string, time: int, etype: string)

  /** A new session starts when more than this many minutes pass between two events of a user. */
  const SessionGapMinutes: nat := 30

  /** The same threshold in seconds: for whole seconds, `gap / 60 > 30` is `gap > 1800`. */
  const SessionGapSeconds: nat := SessionGapMinutes * 60
}
