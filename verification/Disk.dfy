/**
The queue directory as a value, its file operations, and each store operation
as the list of file operations it performs. A crash, or a failing file
operation, leaves a prefix of that list done; an append is one operation per
byte, so a prefix also covers a torn append.
*/
module Disk {
  import opened Base
  import opened HistoryLog
  import opened ForwardRead
  import opened QueueOrder
  import opened Scheduling

  /** The recovery record of a post that GitHub accepted. Old records may lack the optional parts. */
  datatype Journal = Journal(
    id: string,
    postedAt: U64,
    claimToken: Option<string>,
    history: Option<HistoryRecord>,
    historyOffset: Option<nat>)

  datatype Disk = Disk(
    entries: Entries,
    tombstones: map<string, string>,
    lastPost: Option<U64>,
    lastAttempt: Option<U64>,
    journal: Option<Journal>,
    history: seq<byte>)

  datatype FileOp =
    | PutEntry(entry: StoredEntry)
    | DropEntry(id: string)
    | SetTombstone(id: string, incarnation: string)
    | ClearTombstone(id: string)
    | SetLastPost(at: U64)
    | SetLastAttempt(at: U64)
    | SetJournal(journal: Journal)
    | ClearJournal
    | AppendByte(b: byte)

  function Apply(d: Disk, op: FileOp): Disk {
    match op
    case PutEntry(e) => d.(entries := d.entries[e.id := e])
    case DropEntry(id) => d.(entries := d.entries - {id})
    case SetTombstone(id, incarnation) => d.(tombstones := d.tombstones[id := incarnation])
    case ClearTombstone(id) => d.(tombstones := d.tombstones - {id})
    case SetLastPost(at) => d.(lastPost := Some(at))
    case SetLastAttempt(at) => d.(lastAttempt := Some(at))
    case SetJournal(j) => d.(journal := Some(j))
    case ClearJournal => d.(journal := None)
    case AppendByte(b) => d.(history := d.history + [b])
  }

  function Run(d: Disk, ops: seq<FileOp>): Disk
    decreases |ops|
  {
    if ops == [] then d else Run(Apply(d, ops[0]), ops[1..])
  }

  lemma {:induction false} RunConcat(d: Disk, a: seq<FileOp>, b: seq<FileOp>)
    ensures Run(d, a + b) == Run(Run(d, a), b)
    decreases |a|
  {
    if a == [] {
      assert a + b == b;
    } else {
      assert (a + b)[1..] == a[1..] + b;
      RunConcat(Apply(d, a[0]), a[1..], b);
    }
  }

  /** A prefix of two parts is a prefix of the first, or all of it and a prefix of the second. */
  lemma RunPrefix(d: Disk, a: seq<FileOp>, b: seq<FileOp>, k: nat)
    requires k <= |a| + |b|
    ensures Run(d, (a + b)[..k]) == if k <= |a| then Run(d, a[..k]) else Run(Run(d, a), b[..k - |a|])
  {
    if k <= |a| {
      assert (a + b)[..k] == a[..k];
    } else {
      assert (a + b)[..k] == a + b[..k - |a|];
      RunConcat(d, a, b[..k - |a|]);
    }
  }

  lemma RunShort(d: Disk, ops: seq<FileOp>, k: nat)
    requires |ops| <= 1 && k <= |ops|
    ensures Run(d, ops[..k]) == if k == 0 then d else Apply(d, ops[0])
    ensures Run(d, ops) == if ops == [] then d else Apply(d, ops[0])
  {
    assert ops[..|ops|] == ops;
  }

  lemma RunPair(d: Disk, a: FileOp, b: FileOp, k: nat)
    requires k <= 2
    ensures Run(d, [a, b][..k]) == if k == 0 then d else if k == 1 then Apply(d, a) else Apply(Apply(d, a), b)
  {
    RunPrefix(d, [a], [b], k);
    assert [a] + [b] == [a, b];
    RunShort(d, [a], Min(k, 1));
    RunShort(Apply(d, a), [b], Max(0, k - 1));
  }

  /** The bytes `append` writes: a missing final newline first, then the line. */
  function AppendedBytes(c: Codec, log: seq<byte>, r: HistoryRecord): seq<byte> {
    Separator(log) + (c.encode(r) + [NEWLINE])
  }

  function Separator(log: seq<byte>): seq<byte> {
    if log != [] && log[|log| - 1] != NEWLINE then [NEWLINE] else []
  }

  function AppendOps(bytes: seq<byte>): (ops: seq<FileOp>)
    ensures |ops| == |bytes|
  {
    if bytes == [] then [] else [AppendByte(bytes[0])] + AppendOps(bytes[1..])
  }

  lemma {:induction false} RunAppend(d: Disk, bytes: seq<byte>, k: nat)
    requires k <= |bytes|
    ensures Run(d, AppendOps(bytes)[..k]) == d.(history := d.history + bytes[..k])
    decreases |bytes|
  {
    if k == 0 {
      assert d.history + bytes[..k] == d.history;
    } else {
      var ops := AppendOps(bytes);
      assert ops[..k] == [ops[0]] + AppendOps(bytes[1..])[..k - 1];
      assert bytes[..k] == [bytes[0]] + bytes[1..][..k - 1];
      RunAppend(Apply(d, ops[0]), bytes[1..], k - 1);
      assert d.history + [bytes[0]] + bytes[1..][..k - 1] == d.history + bytes[..k];
    }
  }

  /** Whether history already holds the journaled attempt, searching from the journaled offset. */
  function AlreadyRecorded(c: Codec, d: Disk, j: Journal): bool
    requires j.history.Some?
  {
    var from := match j.historyOffset case None => 0 case Some(o) => o;
    HasAttempt(Records(Forward(c), d.history, Min(from, |d.history|)), j.history.value.attemptId)
  }

  function RecordOps(c: Codec, d: Disk, j: Journal): seq<FileOp> {
    if j.history.None? || AlreadyRecorded(c, d, j) then []
    else AppendOps(AppendedBytes(c, d.history, j.history.value))
  }

  /** A deletion marker goes when the post belongs to the marked lifetime or to the queued one. */
  function UnmarkOps(d: Disk, j: Journal): seq<FileOp> {
    if j.history.Some? && j.id in d.tombstones
       && (d.tombstones[j.id] == j.history.value.incarnation
           || (j.id in d.entries && d.entries[j.id].incarnation == j.history.value.incarnation))
    then [ClearTombstone(j.id)] else []
  }

  /** The posted entry goes, unless a replacement without the journaled claim took its place. */
  function DropOps(d: Disk, j: Journal): seq<FileOp> {
    if j.id in d.entries && (j.claimToken.Some? ==> d.entries[j.id].claimToken == j.claimToken)
    then [DropEntry(j.id)] else []
  }

  /** `reconcile_completion`: finish a journaled completion, if there is one. */
  function ReconcileOps(c: Codec, d: Disk): seq<FileOp> {
    match d.journal
    case None => []
    case Some(j) =>
      RecordOps(c, d, j) + (UnmarkOps(d, j) + DropOps(d, j) + [SetLastPost(j.postedAt), ClearJournal])
  }

  function SuccessRecord(e: StoredEntry, tokenHash: string, at: U64, url: Option<string>, attemptId: string): HistoryRecord {
    HistoryRecord(attemptId, e.id, at, true, None, tokenHash, url, e.incarnation, e.request)
  }

  function FailureRecord(e: StoredEntry, tokenHash: string, at: U64, error: string, attemptId: string): HistoryRecord {
    HistoryRecord(attemptId, e.id, at, false, Some(error), tokenHash, None, e.incarnation, e.request)
  }

  /** A record tells of this entry's attempt: what was posted, when and with which token. */
  predicate Tells(r: HistoryRecord, e: StoredEntry, at: U64, tokenHash: string, attemptId: string) {
    && r.id == e.id && r.incarnation == e.incarnation && r.request == e.request
    && r.postedAt == at && r.tokenHash == tokenHash && r.attemptId == attemptId
  }

  function CompletionJournal(d: Disk, e: StoredEntry, r: HistoryRecord): Journal {
    Journal(e.id, r.postedAt, e.claimToken, Some(r), Some(|d.history|))
  }

  /** `complete_claim_with_token`: journal the completion, then reconcile it. */
  function CompleteOps(c: Codec, d: Disk, e: StoredEntry, r: HistoryRecord): seq<FileOp> {
    var j := CompletionJournal(d, e, r);
    [SetJournal(j)] + ReconcileOps(c, d.(journal := Some(j)))
  }

  /** `del`: mark the deletion before removing the entry. */
  function DelOps(d: Disk, id: string): seq<FileOp> {
    if id !in d.entries then [] else [SetTombstone(id, d.entries[id].incarnation), DropEntry(id)]
  }

  /** `release_claim`: record the attempt, then clear the claim it belongs to. */
  function ReleaseOps(d: Disk, id: string, token: string, at: U64): seq<FileOp> {
    if id !in d.entries || d.entries[id].claimToken != Some(token) then []
    else
      var latest := match d.lastAttempt case None => at case Some(t) => Max(t, at);
      [SetLastAttempt(latest), PutEntry(d.entries[id].(claimToken := None))]
  }

  /** What recovery does to one entry: clear its claim and give it a lifetime. */
  function Reclaimed(e: StoredEntry, uuid: string -> string): StoredEntry {
    e.(claimToken := None, incarnation := if e.incarnation == "" then uuid(e.id) else e.incarnation)
  }

  function FirstReclaim(e: StoredEntry, uuid: string -> string): seq<FileOp> {
    if Reclaimed(e, uuid) != e then [PutEntry(Reclaimed(e, uuid))] else []
  }

  function ReclaimOps(es: seq<StoredEntry>, uuid: string -> string): seq<FileOp> {
    if es == [] then [] else FirstReclaim(es[0], uuid) + ReclaimOps(es[1..], uuid)
  }

  /** `reconcile_await_deletions`: a queued entry's deletion marker is left over from a crash. */
  function UnmarkQueuedOps(es: seq<StoredEntry>, tombstones: map<string, string>): seq<FileOp> {
    if es == [] then [] else FirstUnmark(es[0], tombstones) + UnmarkQueuedOps(es[1..], tombstones)
  }

  function FirstUnmark(e: StoredEntry, tombstones: map<string, string>): seq<FileOp> {
    if e.id in tombstones then [ClearTombstone(e.id)] else []
  }

  function PendingOf(d: Disk): Pending {
    Pending(d.entries, d.lastPost, d.lastAttempt)
  }

  /** Whether the entry is due now by the projection over the whole queue. */
  ghost predicate HeadDue(d: Disk, cooldown: U64, now: U64)
    requires WellKeyed(d.entries) && Queue(d.entries) != []
  {
    Eta(HeadTime(PendingOf(d), cooldown, now), now) == 0
  }

  predicate NothingClaimed(d: Disk) {
    forall id :: id in d.entries ==> d.entries[id].claimToken == None
  }

  /** `claim_next_due`: claim the head when nothing is claimed and it is due. */
  ghost function ClaimOps(d: Disk, cooldown: U64, now: U64, token: string): seq<FileOp>
    requires WellKeyed(d.entries)
  {
    if !NothingClaimed(d) || Queue(d.entries) == [] || !HeadDue(d, cooldown, now) then []
    else [PutEntry(Queue(d.entries)[0].(claimToken := Some(token)))]
  }

  /** `bump` and `bust`: rewrite one order key. */
  ghost function BumpOps(d: Disk, id: string): seq<FileOp>
    requires WellKeyed(d.entries)
  {
    if id !in d.entries then []
    else [PutEntry(d.entries[id].(order := BumpOrder(d.entries[id], Queue(d.entries))))]
  }

  ghost function BustOps(d: Disk, id: string): seq<FileOp>
    requires WellKeyed(d.entries)
  {
    if id !in d.entries then []
    else [PutEntry(d.entries[id].(order := BustOrder(d.entries[id], Queue(d.entries))))]
  }

  /** The entry `put` writes for a new identifier. */
  ghost function NewEntry(d: Disk, id: string, incarnation: string, request: CommentRequest,
                          cooldown: U64, flutter: U64, immediate: bool, now: U64): StoredEntry
    requires WellKeyed(d.entries)
  {
    StoredEntry(id, incarnation, TailOrder(Queue(d.entries)), flutter, now,
                if immediate then 0 else SatAdd(SatAdd(now, cooldown), flutter), None, request)
  }

  /** An entry carries what was put: the comment, its flutter and second, and a floor unless it is immediate. */
  predicate Carries(e: StoredEntry, cooldown: U64, request: CommentRequest, flutter: U64, immediate: bool, now: U64) {
    && e.request == request && e.flutterSeconds == flutter && e.enqueuedAt == now
    && e.notBefore == if immediate then 0 else Min(now + cooldown + flutter, U64_MAX)
  }
}
