/**
 The activity record the page receives from the self-care store, restricted to
 plain values: timestamps are milliseconds since the epoch (the result of
 `new Date(startTime)`), and the stored `duration` in hours may be missing.
 */
module Activities {
  import opened Wrappers

  /** Milliseconds since 1970-01-01T00:00:00Z. */
  type Instant = int

  datatype Activity = Activity(
    id: string,
    kind: string,
    title: string,
    description: string,
    startTime: Instant,
    endTime: Instant,
    duration: Option<real>,
    completed: bool)

  /**
   The hours an activity adds to a total: `activity.duration || 0`. A missing
   duration adds nothing, and so does a stored 0.
   */
  function Hours(a: Activity): real {
    a.duration.GetOr(0.0)
  }

  /** The filter predicate of the "Completed" column. */
  predicate IsDone(a: Activity) {
    a.completed
  }

  /** The filter predicate of the "Incomplete" column. */
  predicate IsPending(a: Activity) {
    !a.completed
  }
}
