/**
 * The time-entry mutations the pause-list timers (timeKeeper2.tsx,
 * timeKeeper4.tsx, timeKeeper3.tsx) send on Submit, and what the endpoint
 * answers. The first Submit of a session creates an entry; once the
 * created entry's id is known, later Submits update that entry.
 */
module TimeEntry {
  import opened Wrappers

  /** The mutation a Submit sends. Instants and totals are milliseconds. */
  datatype Request =
    | Create(startTime: int, endTime: int, totalElapsedTime: int)
    | Update(id: int, endTime: int, totalElapsedTime: int)

  /**
   * The outcome of the awaited mutation: the saved entry's id, a thrown
   * `Error` with its message, or a thrown value that is not an `Error`.
   */
  datatype Reply = Saved(id: int) | Failed(message: string) | ThrewNonError

  /** `if (currentEntryId)`: a present id is taken only when it is not 0, JavaScript's falsy number. */
  predicate EntryIdTruthy(entryId: Option<int>)
  {
    entryId.Some? && entryId.value != 0
  }

  /**
   * The create/update branch of Submit: update the remembered entry when
   * there is one, otherwise create a new entry from the session's start.
   */
  function ChooseRequest(entryId: Option<int>, start: int, end: int, total: int): (r: Request)
    ensures r.Update? <==> EntryIdTruthy(entryId)
    ensures r.Update? ==> Some(r.id) == entryId
    ensures r.Create? ==> r.startTime == start
    ensures r.endTime == end && r.totalElapsedTime == total
  {
    if EntryIdTruthy(entryId) then Update(entryId.value, end, total)
    else Create(start, end, total)
  }

  /** `setCurrentEntryId(result.data.createTime.id)`: only a create that succeeded records an id. */
  function EntryIdAfter(entryId: Option<int>, request: Request, reply: Reply): (after: Option<int>)
    ensures request.Create? && reply.Saved? ==> after == Some(reply.id)
    ensures !(request.Create? && reply.Saved?) ==> after == entryId
  {
    if request.Create? && reply.Saved? then Some(reply.id) else entryId
  }

  /** The message the `catch` block of timeKeeper2.tsx and timeKeeper4.tsx shows; "" after a success. */
  function SubmissionErrorText(reply: Reply): (text: string)
    ensures reply.Saved? <==> text == ""
    ensures reply.Failed? ==> text == "Error with time entry: " + reply.message
  {
    match reply
    case Saved(_) => ""
    case Failed(message) => "Error with time entry: " + message
    case ThrewNonError => "An unexpected error occurred."
  }

  /**
   * One create, then updates: once a create has been answered with a
   * non-zero id, every later Submit updates that same entry.
   */
  lemma CreateThenUpdate(entryId: Option<int>, start: int, end1: int, total1: int, id: int, end2: int, total2: int)
    requires !EntryIdTruthy(entryId) && id != 0
    ensures var first := ChooseRequest(entryId, start, end1, total1);
      && first == Create(start, end1, total1)
      && ChooseRequest(EntryIdAfter(entryId, first, Saved(id)), start, end2, total2) == Update(id, end2, total2)
  {
  }

  /**
   * An entry saved with id 0 is not remembered as far as the truthiness
   * test goes: the next Submit creates a second entry.
   */
  lemma ZeroIdCreatesAgain(start: int, end1: int, total1: int, end2: int, total2: int)
    ensures var first := ChooseRequest(None, start, end1, total1);
      ChooseRequest(EntryIdAfter(None, first, Saved(0)), start, end2, total2) == Create(start, end2, total2)
  {
  }

  /** A failed Submit leaves the remembered entry as it was, so retrying repeats the same kind of request. */
  lemma FailureKeepsEntry(entryId: Option<int>, start: int, end: int, total: int, reply: Reply)
    requires !reply.Saved?
    ensures EntryIdAfter(entryId, ChooseRequest(entryId, start, end, total), reply) == entryId
  {
  }
}
