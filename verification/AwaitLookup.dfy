/** The pending-first lookup of an entry's posting outcome, as one locked operation. */
module AwaitLookup {
  import opened Base
  import opened HistoryLog
  import opened ReverseScan
  import opened Disk

  /** The durable outcome of a wait. The estimate of a pending answer is `AwaitCache`'s business. */
  datatype AwaitState =
    | Pending(cursor: AwaitCursor)
    | Posted(commentUrl: Option<string>, postedAt: U64)
    | Unknown

  /** A matching queued lifetime; the first answer binds the wait to it and to the current end of history. */
  function PendingLookup(d: Disk, id: string, cursor: Option<AwaitCursor>): Option<AwaitState> {
    if id !in d.entries then None
    else match cursor
      case None => Some(Pending(AwaitCursor(|d.history|, d.entries[id].incarnation)))
      case Some(bound) => if bound.incarnation == d.entries[id].incarnation then Some(Pending(bound)) else None
  }

  function Outcome(record: Option<HistoryRecord>): AwaitState {
    match record case None => Unknown case Some(r) => Posted(r.commentUrl, r.postedAt)
  }

  /** The recorded completion, unless an unbound lookup finds the identifier's deletion marker. */
  function CompletionLookup(c: Codec, d: Disk, id: string, cursor: Option<AwaitCursor>): AwaitState {
    if cursor.None? && id in d.tombstones then Unknown
    else Outcome(LatestIn(c, d.history, id, cursor))
  }

  function Lookup(c: Codec, d: Disk, id: string, cursor: Option<AwaitCursor>): AwaitState {
    match PendingLookup(d, id, cursor)
    case Some(pending) => pending
    case None => CompletionLookup(c, d, id, cursor)
  }
}
