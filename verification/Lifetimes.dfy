/**
What a fresh wait is told over whole runs that reuse identifiers, with crashes,
failing operations and recoveries.
*/
module Lifetimes {
  import opened Base
  import opened HistoryLog
  import opened ReverseScan
  import opened QueueOrder
  import opened Bounds
  import opened Disk
  import opened Recovery
  import opened LogAppend
  import opened NewestRecord
  import opened StoreSteps
  import opened Machine
  import opened Lineage
  import L = AwaitLookup

  /** What became of the latest lifetime of an identifier. */
  datatype Fate = Queued | Deleted | Posted

  datatype Life = Life(incarnation: string, fate: Fate)

  /** The machine with the latest lifetime of every identifier and the success record of every posted lifetime. */
  datatype Chronicle = Chronicle(state: State, latest: map<string, Life>, posted: map<string, HistoryRecord>)

  /** Recovery may give a legacy lifetime its name. */
  function Renamed(latest: map<string, Life>, m: Entries): map<string, Life> {
    map id | id in latest ::
      if latest[id].fate.Queued? && id in m then Life(m[id].incarnation, Queued) else latest[id]
  }

  ghost function After(cfg: Config, x: Chronicle, ev: Event): Chronicle
    requires Enabled(cfg, x.state, ev)
  {
    var s, s' := x.state, Step(cfg, x.state, ev);
    match ev
    case Reopen(_, _, _) => Chronicle(s', Renamed(x.latest, s'.disk.entries), x.posted)
    case Restart(_, _, _) => Chronicle(s', Renamed(x.latest, s'.disk.entries), x.posted)
    case Put(id, incarnation, _, _, _, _, done, _) =>
      Chronicle(s', if done > 0 then x.latest[id := Life(incarnation, Queued)] else x.latest, x.posted)
    case Del(id, done, _) =>
      if done < 2 || id !in s.disk.entries || (id in x.latest && x.latest[id].fate.Posted?) then x.(state := s') else
      Chronicle(s', x.latest[id := Life(s.disk.entries[id].incarnation, Deleted)], x.posted)
    case Complete(_, _, _, _, done, _) =>
      if done == 0 then x.(state := s') else
      Chronicle(s', Journaled(x.latest, s.worker.entry), x.posted[s.worker.entry.incarnation := Success(s, ev)])
    case _ => x.(state := s')
  }

  function Journaled(latest: map<string, Life>, e: StoredEntry): map<string, Life> {
    if e.id in latest && latest[e.id].incarnation == e.incarnation then latest[e.id := Life(e.incarnation, Posted)] else latest
  }

  /** The journal records the completion of this lifetime and is not reconciled yet. */
  predicate PendingFor(d: Disk, id: string, incarnation: string) {
    d.journal.Some? && d.journal.value.id == id && d.journal.value.history.Some? && d.journal.value.history.value.incarnation == incarnation
  }

  function NewestSuccess(c: Codec, log: seq<byte>, id: string): Option<HistoryRecord> {
    Newest(Records(Reverse(c), log, 0), id, None)
  }

  /** The queue holds exactly the latest lifetimes that are neither deleted nor posted. */
  ghost predicate Tracks(d: Disk, latest: map<string, Life>) {
    && (forall id :: id in d.entries ==>
      && id in latest && latest[id].incarnation == d.entries[id].incarnation && !latest[id].fate.Deleted?
      && (latest[id].fate.Posted? ==> PendingFor(d, id, latest[id].incarnation)))
    && (forall id :: id in latest && latest[id].fate.Queued? ==> id in d.entries)
  }

  /** Deletion markers stand for deleted latest lifetimes, and go when the latest lifetime posts. */
  ghost predicate Marks(d: Disk, latest: map<string, Life>) {
    forall id :: id in latest ==>
      var life := latest[id];
      match life.fate
      case Queued => true
      case Deleted => id in d.tombstones && d.tombstones[id] == life.incarnation
      case Posted =>
        if PendingFor(d, id, life.incarnation)
        then (id in d.entries && d.entries[id].incarnation == life.incarnation) || id !in d.tombstones || d.tombstones[id] == life.incarnation
        else id !in d.tombstones
  }

  /** A posted latest lifetime is the newest success of its identifier. */
  ghost predicate Recorded(c: Codec, d: Disk, latest: map<string, Life>, posted: map<string, HistoryRecord>) {
    forall id :: id in latest && latest[id].fate.Posted? ==>
      var incarnation := latest[id].incarnation;
      && incarnation in posted && posted[incarnation].id == id && posted[incarnation].incarnation == incarnation
      && if PendingFor(d, id, incarnation) then posted[incarnation] == d.journal.value.history.value
         else NewestSuccess(c, d.history, id) == Some(posted[incarnation])
  }

  /** A journal in progress: its record is in the log already or not at all, and then newest. */
  ghost predicate InProgress(c: Codec, d: Disk, j: Journal) {
    && j.historyOffset.Some? && j.historyOffset.value <= |d.history|
    && Interrupted(c, d.history[..j.historyOffset.value], j, d)
    && |c.encode(j.history.value)| < MAX_HISTORY_LINE_BYTES
    && j.history.value.id == j.id && j.history.value.success
    && (Records(Forward(c), d.history, j.historyOffset.value) != [] ==> NewestSuccess(c, d.history, j.id) == Some(j.history.value))
  }

  /** A journaled lifetime that is still the latest counts as posted, and no other posted latest one shares its identifier. */
  ghost predicate JournalTracks(d: Disk, latest: map<string, Life>) {
    d.journal.Some? && d.journal.value.history.Some? && d.journal.value.id in latest ==>
      (latest[d.journal.value.id].fate.Posted? <==> latest[d.journal.value.id].incarnation == d.journal.value.history.value.incarnation)
  }

  /** A journaled latest lifetime that is neither queued nor marked as deleted has its record in the log. */
  ghost predicate Shows(c: Codec, d: Disk, latest: map<string, Life>) {
    d.journal.Some? ==>
      var j := d.journal.value;
      j.id in latest && latest[j.id].fate.Posted? && j.id !in d.entries && j.id !in d.tombstones ==>
        j.historyOffset.Some? && j.historyOffset.value <= |d.history| && Records(Forward(c), d.history, j.historyOffset.value) != []
  }

  ghost predicate Facts(c: Codec, d: Disk, latest: map<string, Life>, posted: map<string, HistoryRecord>) {
    && Tracks(d, latest)
    && Marks(d, latest)
    && Recorded(c, d, latest, posted)
    && (d.journal.Some? ==> InProgress(c, d, d.journal.value))
    && JournalTracks(d, latest)
    && Shows(c, d, latest)
  }

  ghost predicate Chronicled(cfg: Config, x: Chronicle) {
    && Lawful(cfg.codec)
    && Inv(cfg, x.state)
    && Facts(cfg.codec, x.state.disk, x.latest, x.posted)
    && x.posted.Keys == x.state.completed
    && (x.state.worker.Posting? ==> x.state.worker.entry.id in x.latest && !x.latest[x.state.worker.entry.id].fate.Posted?)
  }

  /** Nothing is known yet but the entries in the queue. */
  ghost predicate Begin(cfg: Config, x: Chronicle) {
    && Lawful(cfg.codec)
    && Init(cfg, x.state)
    && x.latest == (map id | id in x.state.disk.entries :: Life(x.state.disk.entries[id].incarnation, Queued))
    && x.posted == map[]
  }

  /** The source bounds what a completion record holds; it fits a history line. */
  ghost predicate Fits(cfg: Config, s: State, ev: Event) {
    ev.Complete? && s.worker.Posting? ==> |cfg.codec.encode(Success(s, ev))| < MAX_HISTORY_LINE_BYTES
  }

  lemma BeginChronicled(cfg: Config, x: Chronicle)
    requires Begin(cfg, x)
    ensures Chronicled(cfg, x)
  {
    hide Inv, Lawful;
    InitInv(cfg, x.state);
  }

  // Reconciling a journal.

  lemma ReconcileTracks(s: State, latest: map<string, Life>, d': Disk)
    requires QueueInv(s) && s.disk.journal.Some? && Tracks(s.disk, latest) && JournalTracks(s.disk, latest)
    requires d'.entries == s.disk.entries || (DropOps(s.disk, s.disk.journal.value) != [] && d'.entries == s.disk.entries - {s.disk.journal.value.id})
    requires d'.journal == s.disk.journal || d'.journal == None
    requires d'.journal == None && DropOps(s.disk, s.disk.journal.value) != [] ==> d'.entries == s.disk.entries - {s.disk.journal.value.id}
    requires forall id :: id in latest && latest[id].fate.Posted? ==> latest[id].incarnation in s.completed
    ensures Tracks(d', latest) && JournalTracks(d', latest)
  {
    hide Lives;
    var m, j := s.disk.entries, s.disk.journal.value;
    assert forall id :: id in m && m[id].claimToken.Some? ==>
      id == j.id && m[id].claimToken == j.claimToken && m[id].incarnation == j.history.value.incarnation;
    assert DropOps(s.disk, j) != [] <==> j.id in m && m[j.id].claimToken == j.claimToken;
  }

  lemma ReconcileMarks(d: Disk, latest: map<string, Life>, d': Disk)
    requires d.journal.Some? && Tracks(d, latest) && Marks(d, latest) && JournalTracks(d, latest) && d.journal.value.history.Some?
    requires
      var j := d.journal.value;
      && (d'.entries == d.entries || d'.entries == d.entries - {j.id})
      && (d'.tombstones == d.tombstones || (UnmarkOps(d, j) != [] && d'.tombstones == d.tombstones - {j.id}))
      && (d'.entries != d.entries && UnmarkOps(d, j) != [] ==> d'.tombstones == d.tombstones - {j.id})
      && (d'.journal == Some(j) || (d'.journal == None && (UnmarkOps(d, j) != [] ==> d'.tombstones == d.tombstones - {j.id})))
    ensures Marks(d', latest)
  {
    var j := d.journal.value;
    forall id | id in latest && id != j.id ensures PendingFor(d, id, latest[id].incarnation) == PendingFor(d', id, latest[id].incarnation) == false {
    }
  }

  lemma RecordedNewest(c: Codec, d: Disk, j: Journal, k: nat, id: string)
    requires Lawful(c) && InProgress(c, d, j) && k <= |RecordOps(c, d, j)|
    ensures
      var d' := Run(d, RecordOps(c, d, j)[..k]);
      && InProgress(c, d', j)
      && d' == d.(history := d'.history)
      && (id != j.id ==> NewestSuccess(c, d'.history, id) == NewestSuccess(c, d.history, id))
      && (k == |RecordOps(c, d, j)| ==> NewestSuccess(c, d'.history, j.id) == Some(j.history.value))
  {
    hide Records, Newest, Lawful, AppendOps, AppendedBytes, Run, AlreadyRecorded;
    var base, r := d.history[..j.historyOffset.value], j.history.value;
    RecordStep(c, base, j, d, k);
    FoundIffPresent(c, base, j, d);
    if RecordOps(c, d, j) == [] {
      RunShort(d, [], 0);
    } else {
      AppendedRecord(c, d, j, k, id);
    }
  }

  lemma AppendedRecord(c: Codec, d: Disk, j: Journal, k: nat, id: string)
    requires Lawful(c) && InProgress(c, d, j) && !AlreadyRecorded(c, d, j)
    requires k <= |AppendedBytes(c, d.history, j.history.value)|
    ensures
      var d' := Run(d, AppendOps(AppendedBytes(c, d.history, j.history.value))[..k]);
      && InProgress(c, d', j)
      && (id != j.id ==> NewestSuccess(c, d'.history, id) == NewestSuccess(c, d.history, id))
      && (k == |AppendedBytes(c, d.history, j.history.value)| ==> NewestSuccess(c, d'.history, j.id) == Some(j.history.value))
  {
    hide Records, Newest, Lawful, AppendOps, Run, AppendedBytes;
    var base, r := d.history[..j.historyOffset.value], j.history.value;
    var bytes := AppendedBytes(c, d.history, r);
    assert RecordOps(c, d, j) == AppendOps(bytes);
    RecordStep(c, base, j, d, k);
    RunAppend(d, bytes, k);
    AppendedLength(c, d.history, r);
    AppendNewest(c, d.history, r, k, 0, id, None);
    AppendNewest(c, d.history, r, k, 0, j.id, None);
    var d' := d.(history := d.history + bytes[..k]);
    assert d'.history[..j.historyOffset.value] == base;
    TornForward(c, base, d, r, k);
  }

  /** While the record is torn, the forward reader has nothing to find. */
  lemma {:induction false} TornForward(c: Codec, base: seq<byte>, d: Disk, r: HistoryRecord, k: nat)
    requires Lawful(c) && |c.encode(r)| < MAX_HISTORY_LINE_BYTES
    requires |base| <= |d.history| && k <= |AppendedBytes(c, d.history, r)|
    requires Records(Forward(c), d.history, |base|) == []
    ensures k < |Separator(d.history)| + |c.encode(r)| ==> Records(Forward(c), d.history + AppendedBytes(c, d.history, r)[..k], |base|) == []
  {
    hide Records, Lawful, AppendedBytes;
    TornAppend(c, d.history, r, |base|, k);
  }

  /** What any prefix of a reconciliation does to the history. */
  lemma {:induction false} ReconcileHistory(c: Codec, d: Disk, k: nat) returns (n: nat)
    requires d.journal.Some? && k <= |ReconcileOps(c, d)|
    ensures n <= |RecordOps(c, d, d.journal.value)|
    ensures k == |ReconcileOps(c, d)| ==> n == |RecordOps(c, d, d.journal.value)|
    ensures Run(d, ReconcileOps(c, d)[..k]).history == Run(d, RecordOps(c, d, d.journal.value)[..n]).history
  {
    hide Run, ReconcileOps, RecordOps;
    var j := d.journal.value;
    var a, t := RecordOps(c, d, j), TailOps(d, j);
    TailUnaffected(c, d, j);
    RunPrefix(d, a, t, k);
    n := Min(k, |a|);
    assert a[..|a|] == a;
    if k > |a| {
      RecordEffect(c, d, j, |a|);
      TailStep(Run(d, a), j, k - |a|);
    }
  }

  lemma ReconcileRecorded(c: Codec, d: Disk, latest: map<string, Life>, posted: map<string, HistoryRecord>, k: nat)
    requires Lawful(c) && d.journal.Some? && k <= |ReconcileOps(c, d)|
    requires InProgress(c, d, d.journal.value) && JournalTracks(d, latest) && Recorded(c, d, latest, posted)
    ensures
      var d' := Run(d, ReconcileOps(c, d)[..k]);
      && Recorded(c, d', latest, posted)
      && (d'.journal.Some? ==> InProgress(c, d', d'.journal.value))
  {
    hide Run, ReconcileOps, RecordOps, NewestSuccess, Records, Lawful, Extends, UnmarkOps, DropOps;
    var j := d.journal.value;
    var n := ReconcileHistory(c, d, k);
    ReconcileEffect(c, d, k);
    var d', mid := Run(d, ReconcileOps(c, d)[..k]), Run(d, RecordOps(c, d, j)[..n]);
    RecordedNewest(c, d, j, n, j.id);
    forall id | id != j.id ensures NewestSuccess(c, mid.history, id) == NewestSuccess(c, d.history, id) {
      RecordedNewest(c, d, j, n, id);
    }
    forall id | id in latest && latest[id].fate.Posted?
      ensures PendingFor(d, id, latest[id].incarnation) <==> id == j.id
    {
    }
  }

  /** Marker and entry go only once the record is in the log. */
  lemma {:induction false} ReconcileShows(c: Codec, d: Disk, latest: map<string, Life>, k: nat)
    requires Lawful(c) && d.journal.Some? && k <= |ReconcileOps(c, d)|
    requires InProgress(c, d, d.journal.value) && Shows(c, d, latest)
    ensures Shows(c, Run(d, ReconcileOps(c, d)[..k]), latest)
  {
    hide Run, ReconcileOps, Records, NewestSuccess, Lawful, UnmarkOps, DropOps, AppendOps, AppendedBytes;
    var j := d.journal.value;
    var base := d.history[..j.historyOffset.value];
    var a, t := RecordOps(c, d, j), TailOps(d, j);
    TailUnaffected(c, d, j);
    RunPrefix(d, a, t, k);
    RecordStep(c, base, j, d, Min(k, |a|));
    FoundIffPresent(c, base, j, d);
    assert a[..|a|] == a;
    if k > |a| {
      TailStep(Run(d, a), j, k - |a|);
    } else if a == [] {
      RunShort(d, a, 0);
    }
  }

  /** Reconciling, whole or stopped anywhere, keeps what is known about every lifetime. */
  lemma ReconcileFacts(c: Codec, s: State, latest: map<string, Life>, posted: map<string, HistoryRecord>, k: nat)
    requires Lawful(c) && QueueInv(s) && posted.Keys <= s.completed && k <= |ReconcileOps(c, s.disk)|
    requires Facts(c, s.disk, latest, posted)
    ensures Facts(c, Run(s.disk, ReconcileOps(c, s.disk)[..k]), latest, posted)
  {
    hide Run, ReconcileOps, QueueInv, Lawful, InProgress, UnmarkOps, DropOps, NewestSuccess, Shows;
    if s.disk.journal.None? {
      NoJournal(c, s.disk);
    } else {
      var d' := Run(s.disk, ReconcileOps(c, s.disk)[..k]);
      ReconcileEffect(c, s.disk, k);
      ReconcileTracks(s, latest, d');
      assert s.disk.journal.value.history.Some? by { JournalFacts(s); }
      ReconcileMarks(s.disk, latest, d');
      ReconcileRecorded(c, s.disk, latest, posted, k);
      ReconcileShows(c, s.disk, latest, k);
    }
  }

  // Recovery.

  lemma RenamedSame(d: Disk, latest: map<string, Life>)
    requires Tracks(d, latest)
    ensures Renamed(latest, d.entries) == latest
  {
  }

  lemma ReclaimFacts(c: Codec, d: Disk, latest: map<string, Life>, posted: map<string, HistoryRecord>, m': Entries)
    requires d.journal == None && m'.Keys == d.entries.Keys
    requires Facts(c, d, latest, posted)
    ensures Facts(c, d.(entries := m'), Renamed(latest, m'), posted)
  {
    hide NewestSuccess, InProgress, Renamed;
    var d', named := d.(entries := m'), Renamed(latest, m');
    RenamedFates(latest, m');
    assert Tracks(d', named);
  }

  lemma RenamedFates(latest: map<string, Life>, m: Entries)
    ensures
      var named := Renamed(latest, m);
      && named.Keys == latest.Keys
      && (forall id :: id in latest ==> named[id].fate == latest[id].fate)
      && (forall id :: id in latest && !latest[id].fate.Queued? ==> named[id] == latest[id])
      && (forall id :: id in latest && latest[id].fate.Queued? && id in m ==> named[id].incarnation == m[id].incarnation)
  {
  }

  lemma {:induction false} RecoverFacts(cfg: Config, s: State, latest: map<string, Life>, posted: map<string, HistoryRecord>,
                     uuid: string -> string, k: nat)
    requires Lawful(cfg.codec) && Inv(cfg, s) && s.worker.Down? && NewUuids(s, uuid) && posted.Keys <= s.completed
    requires k <= |RecoverOps(cfg.codec, s.disk, uuid)|
    requires Facts(cfg.codec, s.disk, latest, posted)
    ensures
      var d' := Run(s.disk, RecoverOps(cfg.codec, s.disk, uuid)[..k]);
      Facts(cfg.codec, d', Renamed(latest, d'.entries), posted)
  {
    hide Admitted, Run, QueueInv, TimeInv, ReconcileOps, ReclaimOps, Facts, Lawful, Renamed, NewUuids;
    var c := cfg.codec;
    var a := ReconcileOps(c, s.disk);
    var mid := s.(disk := Run(s.disk, a));
    assert a[..|a|] == a;
    ReconcileKeeps(cfg, s, |a|);
    AdmittedKeyed(cfg.fixed, mid.disk.entries);
    var b := ReclaimOps(Queue(mid.disk.entries), uuid);
    assert RecoverOps(c, s.disk, uuid) == a + b;
    if k < |a| {
      RunPrefix(s.disk, a, b, k);
      ReconcileFacts(c, s, latest, posted, k);
      FactsRenamed(c, Run(s.disk, a[..k]), latest, posted);
    } else {
      RunPrefixRest(s.disk, a, b, k);
      ReconcileFacts(c, s, latest, posted, |a|);
      assert NewUuids(mid, uuid) by { FewerEntries(cfg, s, uuid, |a|); }
      ReclaimKeeps(cfg, mid, uuid, k - |a|);
      ReclaimFacts(c, mid.disk, latest, posted, Run(mid.disk, b[..k - |a|]).entries);
    }
  }

  lemma FactsRenamed(c: Codec, d: Disk, latest: map<string, Life>, posted: map<string, HistoryRecord>)
    requires Facts(c, d, latest, posted)
    ensures Facts(c, d, Renamed(latest, d.entries), posted)
  {
    hide Marks, Recorded, InProgress, JournalTracks;
    RenamedSame(d, latest);
  }

  /** Clearing the deletion markers of queued entries. */
  lemma UnmarkFacts(c: Codec, d: Disk, latest: map<string, Life>, posted: map<string, HistoryRecord>,
                    marks: map<string, string>)
    requires d.journal == None && Facts(c, d, latest, posted)
    requires forall id :: id in marks ==> id in d.tombstones && marks[id] == d.tombstones[id]
    requires forall id :: id in d.tombstones && id !in marks ==> id in d.entries
    ensures Facts(c, d.(tombstones := marks), latest, posted)
  {
    hide NewestSuccess;
  }

  // One event.

  /** Events after which the queue holds the same lifetimes. */
  lemma SameLivesFacts(c: Codec, d: Disk, d': Disk, latest: map<string, Life>, posted: map<string, HistoryRecord>)
    requires Facts(c, d, latest, posted) && d'.journal == d.journal
    requires d'.entries.Keys == d.entries.Keys && d'.tombstones == d.tombstones
    requires forall id :: id in d.entries ==> d'.entries[id].incarnation == d.entries[id].incarnation
    requires d'.history == d.history || (d.journal == None && forall id :: NewestSuccess(c, d'.history, id) == NewestSuccess(c, d.history, id))
    ensures Facts(c, d', latest, posted)
  {
    hide NewestSuccess;
  }

  lemma PutFacts(c: Codec, d: Disk, latest: map<string, Life>, posted: map<string, HistoryRecord>, e: StoredEntry)
    requires Facts(c, d, latest, posted) && e.id !in d.entries
    requires d.journal.Some? && d.journal.value.history.Some? ==> e.incarnation != d.journal.value.history.value.incarnation
    ensures Facts(c, d.(entries := d.entries[e.id := e]), latest[e.id := Life(e.incarnation, Queued)], posted)
  {
    hide NewestSuccess, Extends, Records;
  }

  lemma MarkFacts(c: Codec, d: Disk, latest: map<string, Life>, posted: map<string, HistoryRecord>, id: string)
    requires Facts(c, d, latest, posted) && id in d.entries
    ensures id in latest && latest[id].incarnation == d.entries[id].incarnation
    ensures Facts(c, d.(tombstones := d.tombstones[id := d.entries[id].incarnation]), latest, posted)
  {
    hide NewestSuccess, Extends, Records;
  }

  /** Deleting an entry whose post is journaled but not reconciled does not undo the post. */
  lemma DropFacts(c: Codec, d: Disk, latest: map<string, Life>, posted: map<string, HistoryRecord>, id: string)
    requires Facts(c, d, latest, posted) && id in d.entries && id in latest
    requires id in d.tombstones && d.tombstones[id] == d.entries[id].incarnation
    ensures
      var after := if latest[id].fate.Posted? then latest else latest[id := Life(d.entries[id].incarnation, Deleted)];
      Facts(c, d.(entries := d.entries - {id}), after, posted)
  {
    hide NewestSuccess, Extends, Records;
  }

  lemma JournalFactsHold(c: Codec, d: Disk, latest: map<string, Life>, posted: map<string, HistoryRecord>,
                         e: StoredEntry, r: HistoryRecord)
    requires Facts(c, d, latest, posted) && d.journal == None && e.incarnation !in posted
    requires e.id in latest && !latest[e.id].fate.Posted?
    requires r.id == e.id && r.incarnation == e.incarnation && r.success && |c.encode(r)| < MAX_HISTORY_LINE_BYTES
    ensures Facts(c, d.(journal := Some(CompletionJournal(d, e, r))), Journaled(latest, e), posted[e.incarnation := r])
  {
    hide Tracks, Marks, Recorded, InProgress, JournalTracks, Shows, Journaled;
    JournalInProgress(c, d, e, r);
    JournalTracked(c, d, latest, e, r);
    JournalMarked(c, d, latest, e, r);
    JournalRecorded(c, d, latest, posted, e, r);
    JournalShows(c, d, latest, e, r);
  }

  lemma JournalTracked(c: Codec, d: Disk, latest: map<string, Life>, e: StoredEntry, r: HistoryRecord)
    requires Tracks(d, latest) && d.journal == None && e.id in latest && !latest[e.id].fate.Posted?
    requires r.id == e.id && r.incarnation == e.incarnation
    ensures
      var after := d.(journal := Some(CompletionJournal(d, e, r)));
      Tracks(after, Journaled(latest, e)) && JournalTracks(after, Journaled(latest, e))
  {
  }

  lemma JournalMarked(c: Codec, d: Disk, latest: map<string, Life>, e: StoredEntry, r: HistoryRecord)
    requires Tracks(d, latest) && Marks(d, latest) && d.journal == None && e.id in latest && !latest[e.id].fate.Posted?
    requires r.incarnation == e.incarnation
    ensures Marks(d.(journal := Some(CompletionJournal(d, e, r))), Journaled(latest, e))
  {
  }

  lemma JournalRecorded(c: Codec, d: Disk, latest: map<string, Life>, posted: map<string, HistoryRecord>, e: StoredEntry, r: HistoryRecord)
    requires Recorded(c, d, latest, posted) && d.journal == None && e.id in latest && !latest[e.id].fate.Posted?
    requires e.incarnation !in posted && r.id == e.id && r.incarnation == e.incarnation
    ensures Recorded(c, d.(journal := Some(CompletionJournal(d, e, r))), Journaled(latest, e), posted[e.incarnation := r])
  {
    hide NewestSuccess;
  }

  lemma JournalShows(c: Codec, d: Disk, latest: map<string, Life>, e: StoredEntry, r: HistoryRecord)
    requires Tracks(d, latest) && Marks(d, latest) && e.id in latest && !latest[e.id].fate.Posted?
    ensures Shows(c, d.(journal := Some(CompletionJournal(d, e, r))), Journaled(latest, e))
  {
  }

  lemma JournalInProgress(c: Codec, d: Disk, e: StoredEntry, r: HistoryRecord)
    requires r.id == e.id && r.success && |c.encode(r)| < MAX_HISTORY_LINE_BYTES
    ensures
      var j := CompletionJournal(d, e, r);
      InProgress(c, d.(journal := Some(j)), j)
  {
    hide NewestSuccess, Records, Extends;
    JournaledIsInterrupted(c, d, e, r);
    assert d.history[..|d.history|] == d.history;
    RecordsFirst(Forward(c), d.history, |d.history|);
  }

  lemma {:induction false} RecoverEvent(cfg: Config, x: Chronicle, ev: Event)
    requires Chronicled(cfg, x) && Enabled(cfg, x.state, ev) && (ev.Restart? || ev.Reopen?)
    ensures Facts(cfg.codec, After(cfg, x, ev).state.disk, After(cfg, x, ev).latest, x.posted)
  {
    hide Admitted, Run, RecoverOps, QueueInv, TimeInv, Facts, Renamed, QueueOrNone, NewUuids, Lawful, UnmarkQueuedOps;
    var s, c := x.state, cfg.codec;
    var a := RecoverOps(c, s.disk, ev.uuid);
    assert s.worker.Down? by { DownUnlessOpen(s); }
    RecoverKeeps(cfg, s, ev.uuid, |a|);
    assert a[..|a|] == a;
    if ev.Restart? || ev.done < |a| {
      RecoverFacts(cfg, s, x.latest, x.posted, ev.uuid, ev.done);
      if ev.Reopen? {
        RunPrefix(s.disk, a, UnmarkQueuedOps(QueueOrNone(Run(s.disk, a).entries), Run(s.disk, a).tombstones), ev.done);
      }
    } else {
      RecoverFacts(cfg, s, x.latest, x.posted, ev.uuid, |a|);
      var mid := Run(s.disk, a);
      AdmittedKeyed(cfg.fixed, mid.entries);
      var es := QueueOrNone(mid.entries);
      var u := UnmarkQueuedOps(es, mid.tombstones);
      RunPrefixRest(s.disk, a, u, ev.done);
      UnmarkQueuedEffect(mid, es, mid.tombstones, ev.done - |a|);
      QueuedListed(mid.entries);
      UnmarkFacts(c, mid, Renamed(x.latest, mid.entries), x.posted, Run(mid, u[..ev.done - |a|]).tombstones);
    }
  }

  lemma QueuedListed(m: Entries)
    requires WellKeyed(m)
    ensures forall i :: 0 <= i < |QueueOrNone(m)| ==> QueueOrNone(m)[i].id in m
  {
    QueueStands(m);
  }

  lemma DownUnlessOpen(s: State)
    requires QueueInv(s)
    ensures !s.open ==> s.worker.Down?
  {
  }

  lemma {:induction false} CompleteEvent(cfg: Config, x: Chronicle, ev: Event)
    requires Chronicled(cfg, x) && Enabled(cfg, x.state, ev) && ev.Complete? && Fits(cfg, x.state, ev)
    ensures
      var x' := After(cfg, x, ev);
      && Facts(cfg.codec, x'.state.disk, x'.latest, x'.posted)
      && x'.posted.Keys == x'.state.completed
  {
    hide Admitted, Run, QueueInv, TimeInv, Facts, Lawful, ReconcileOps;
    var s, c := x.state, cfg.codec;
    var e, r := s.worker.entry, Success(s, ev);
    assert s.open && s.disk.journal == None by { PostingOpen(s); }
    if ev.done == 0 {
      assert Run(s.disk, []) == s.disk by { RunShort(s.disk, [], 0); }
    } else {
      var j := CompletionJournal(s.disk, e, r);
      JournalQueue(s, j);
      var journaled := s.(disk := s.disk.(journal := Some(j)), worker := Down, completed := s.completed + {e.incarnation});
      assert e.incarnation !in x.posted by { NotPosted(s); }
      JournalFactsHold(c, s.disk, x.latest, x.posted, e, r);
      var ops := ReconcileOps(c, journaled.disk);
      RunPrefixRest(s.disk, [SetJournal(j)], ops, ev.done);
      RunShort(s.disk, [SetJournal(j)], 1);
      ReconcileFacts(c, journaled, Journaled(x.latest, e), x.posted[e.incarnation := r], ev.done - 1);
    }
  }

  lemma NotPosted(s: State)
    requires QueueInv(s) && s.worker.Posting?
    ensures s.worker.entry.incarnation !in s.completed
  {
  }

  /** A failed attempt's record, whole or torn, is nobody's success. */
  lemma FailedNewest(cfg: Config, s: State, ev: Event, from: nat, id: string, cursor: Option<AwaitCursor>)
    requires Lawful(cfg.codec) && ev.Record? && Enabled(cfg, s, ev) && from <= |s.disk.history|
    ensures s.disk.history <= Left(cfg, s, ev).history
    ensures Left(cfg, s, ev) == s.disk.(history := Left(cfg, s, ev).history)
    ensures Newest(Records(Reverse(cfg.codec), Left(cfg, s, ev).history, from), id, cursor)
         == Newest(Records(Reverse(cfg.codec), s.disk.history, from), id, cursor)
  {
    hide Lawful, Records, Newest, AppendedBytes, Reverse, Run, AppendOps;
    RunAppend(s.disk, AppendedBytes(cfg.codec, s.disk.history, Failure(s, ev)), ev.done);
    AppendNewest(cfg.codec, s.disk.history, Failure(s, ev), ev.done, from, id, cursor);
  }

  lemma {:induction false} RecordEvent(cfg: Config, x: Chronicle, ev: Event)
    requires Chronicled(cfg, x) && Enabled(cfg, x.state, ev) && ev.Record?
    ensures Facts(cfg.codec, After(cfg, x, ev).state.disk, x.latest, x.posted)
  {
    hide Admitted, Left, QueueInv, TimeInv, Facts, Lawful, Records, Newest, Reverse;
    var s, c := x.state, cfg.codec;
    assert s.disk.journal == None by { PostingOpen(s); }
    FailedNewest(cfg, s, ev, 0, "", None);
    forall id ensures NewestSuccess(c, Left(cfg, s, ev).history, id) == NewestSuccess(c, s.disk.history, id) {
      FailedNewest(cfg, s, ev, 0, id, None);
    }
    SameLivesFacts(c, s.disk, Left(cfg, s, ev), x.latest, x.posted);
  }

  /** Claims, releases, bumps and busts rewrite one entry within its lifetime. */
  lemma {:induction false} RewriteEvent(cfg: Config, x: Chronicle, ev: Event)
    requires Chronicled(cfg, x) && Enabled(cfg, x.state, ev) && (ev.Claim? || ev.Release? || ev.Bump? || ev.Bust?)
    ensures Facts(cfg.codec, After(cfg, x, ev).state.disk, x.latest, x.posted)
  {
    hide Inv, Run, Ops, Facts, Lawful;
    var s := x.state;
    RewrittenLives(cfg, s, ev, ev.done);
    SameLivesFacts(cfg.codec, s.disk, Left(cfg, s, ev), x.latest, x.posted);
  }

  lemma ClaimedLive(cfg: Config, x: Chronicle, ev: Event)
    requires Chronicled(cfg, x) && Enabled(cfg, x.state, ev) && ev.Claim?
    ensures var w := Step(cfg, x.state, ev).worker; w.Posting? ==> w.entry.id in x.latest && !x.latest[w.entry.id].fate.Posted?
  {
    hide Admitted, Run, QueueInv, TimeInv, Facts, Lawful;
    var s := x.state;
    if Ops(cfg, s, ev) != [] {
      var head := Queue(s.disk.entries)[0];
      assert head in Queue(s.disk.entries);
      assert s.disk.journal == None by { IdleJournal(s); }
      QueuedLive(cfg.codec, s.disk, x.latest, x.posted, head.id);
    }
  }

  lemma IdleJournal(s: State)
    requires QueueInv(s) && s.worker.Idle?
    ensures s.disk.journal == None
  {
  }

  lemma QueuedLive(c: Codec, d: Disk, latest: map<string, Life>, posted: map<string, HistoryRecord>, id: string)
    requires Facts(c, d, latest, posted) && d.journal == None && id in d.entries
    ensures id in latest && latest[id] == Life(d.entries[id].incarnation, Queued)
  {
    hide InProgress, Recorded, Marks;
  }

  lemma {:induction false} PutEvent(cfg: Config, x: Chronicle, ev: Event)
    requires Chronicled(cfg, x) && Enabled(cfg, x.state, ev) && ev.Put?
    ensures Facts(cfg.codec, After(cfg, x, ev).state.disk, After(cfg, x, ev).latest, x.posted)
  {
    hide Admitted, Run, QueueInv, TimeInv, Facts, Lawful, Refusal;
    var s := x.state;
    var ops := Ops(cfg, s, ev);
    RunShort(s.disk, ops, ev.done);
    if s.disk.journal.Some? {
      JournalUsed(s);
    }
    PutFacts(cfg.codec, s.disk, x.latest, x.posted, ops[0].entry);
  }

  lemma JournalUsed(s: State)
    requires QueueInv(s) && s.disk.journal.Some?
    ensures s.disk.journal.value.history.Some? && s.disk.journal.value.history.value.incarnation in s.used
  {
  }

  lemma {:induction false} DelEvent(cfg: Config, x: Chronicle, ev: Event)
    requires Chronicled(cfg, x) && Enabled(cfg, x.state, ev) && ev.Del?
    ensures Facts(cfg.codec, After(cfg, x, ev).state.disk, After(cfg, x, ev).latest, x.posted)
  {
    hide Admitted, Run, QueueInv, TimeInv, Facts, Lawful;
    var s := x.state;
    var ops := DelOps(s.disk, ev.id);
    if ops == [] {
      RunShort(s.disk, ops, 0);
    } else {
      RunPair(s.disk, ops[0], ops[1], ev.done);
      assert ops == [ops[0], ops[1]];
      MarkFacts(cfg.codec, s.disk, x.latest, x.posted, ev.id);
      DropFacts(cfg.codec, Apply(s.disk, ops[0]), x.latest, x.posted, ev.id);
    }
  }

  lemma {:induction false} AfterDisk(cfg: Config, x: Chronicle, ev: Event)
    requires Chronicled(cfg, x) && Enabled(cfg, x.state, ev) && Fits(cfg, x.state, ev)
    ensures
      var x' := After(cfg, x, ev);
      && Facts(cfg.codec, x'.state.disk, x'.latest, x'.posted)
      && x'.posted.Keys == x'.state.completed
  {
    hide Inv, Ops, Run, Facts, Enabled, Lawful, Fits;
    match ev
    case Crash =>
    case Die =>
    case Reopen(_, _, _) => RecoverEvent(cfg, x, ev);
    case Restart(_, _, _) => RecoverEvent(cfg, x, ev);
    case Claim(_, _, _, _) => RewriteEvent(cfg, x, ev);
    case Complete(_, _, _, _, _, _) => CompleteEvent(cfg, x, ev);
    case Record(_, _, _, _, _, _) => RecordEvent(cfg, x, ev);
    case Release(_, _, _) => RewriteEvent(cfg, x, ev);
    case Put(_, _, _, _, _, _, _, _) => PutEvent(cfg, x, ev);
    case Bump(_, _, _) => RewriteEvent(cfg, x, ev);
    case Bust(_, _, _) => RewriteEvent(cfg, x, ev);
    case Del(_, _, _) => DelEvent(cfg, x, ev);
  }

  lemma {:induction false} AfterWorker(cfg: Config, x: Chronicle, ev: Event)
    requires Chronicled(cfg, x) && Enabled(cfg, x.state, ev)
    ensures
      var x' := After(cfg, x, ev);
      x'.state.worker.Posting? ==> x'.state.worker.entry.id in x'.latest && !x'.latest[x'.state.worker.entry.id].fate.Posted?
  {
    hide Inv, Ops, Run, Facts, Lawful;
    if ev.Claim? {
      ClaimedLive(cfg, x, ev);
    } else if ev.Reopen? {
      assert x.state.worker.Down? by { InvDown(cfg, x.state); }
    }
  }

  lemma InvDown(cfg: Config, s: State)
    requires Inv(cfg, s) && !s.open
    ensures s.worker.Down?
  {
    hide Admitted, TimeInv;
    DownUnlessOpen(s);
  }

  lemma {:induction false} StepChronicled(cfg: Config, x: Chronicle, ev: Event)
    requires Chronicled(cfg, x) && Enabled(cfg, x.state, ev) && Fits(cfg, x.state, ev)
    ensures Chronicled(cfg, After(cfg, x, ev))
  {
    hide Inv, Facts, Enabled, Lawful, Fits, Renamed, Journaled;
    AfterDisk(cfg, x, ev);
    AfterWorker(cfg, x, ev);
    StepKeeps(cfg, x.state, ev);
    assert After(cfg, x, ev).state == Step(cfg, x.state, ev);
  }

  ghost predicate IsStory(cfg: Config, x: Chronicle, evs: seq<Event>)
    decreases |evs|
  {
    evs == [] || (Enabled(cfg, x.state, evs[0]) && Fits(cfg, x.state, evs[0]) && IsStory(cfg, After(cfg, x, evs[0]), evs[1..]))
  }

  ghost function Told(cfg: Config, x: Chronicle, evs: seq<Event>): Chronicle
    requires IsStory(cfg, x, evs)
    decreases |evs|
  {
    if evs == [] then x else Told(cfg, After(cfg, x, evs[0]), evs[1..])
  }

  lemma {:induction false} StoryChronicled(cfg: Config, x: Chronicle, evs: seq<Event>)
    requires Chronicled(cfg, x) && IsStory(cfg, x, evs)
    ensures Chronicled(cfg, Told(cfg, x, evs))
    decreases |evs|
  {
    hide Chronicled, Enabled, Fits, After;
    if evs != [] {
      StepChronicled(cfg, x, evs[0]);
      StoryChronicled(cfg, After(cfg, x, evs[0]), evs[1..]);
    }
  }

  /** A chronicle that some run tells. */
  ghost predicate Recounted(cfg: Config, x: Chronicle) {
    exists x0: Chronicle, evs: seq<Event> :: Begin(cfg, x0) && IsStory(cfg, x0, evs) && Told(cfg, x0, evs) == x
  }

  lemma {:induction false} RecountedChronicled(cfg: Config, x: Chronicle)
    requires Recounted(cfg, x)
    ensures Chronicled(cfg, x)
  {
    hide Chronicled, Begin, IsStory, Told;
    var x0: Chronicle, evs: seq<Event> :| Begin(cfg, x0) && IsStory(cfg, x0, evs) && Told(cfg, x0, evs) == x;
    BeginChronicled(cfg, x0);
    StoryChronicled(cfg, x0, evs);
  }

  /** Another event takes the story on. */
  lemma RecountedStep(cfg: Config, x: Chronicle, ev: Event)
    requires Recounted(cfg, x) && Enabled(cfg, x.state, ev) && Fits(cfg, x.state, ev)
    ensures Recounted(cfg, After(cfg, x, ev))
  {
    hide Begin, Enabled, Fits, After;
    var x0: Chronicle, evs: seq<Event> :| Begin(cfg, x0) && IsStory(cfg, x0, evs) && Told(cfg, x0, evs) == x;
    StoryExtends(cfg, x0, evs, ev);
    assert Begin(cfg, x0) && IsStory(cfg, x0, evs + [ev]) && Told(cfg, x0, evs + [ev]) == After(cfg, x, ev);
  }

  lemma {:induction false} StoryExtends(cfg: Config, x: Chronicle, evs: seq<Event>, ev: Event)
    requires IsStory(cfg, x, evs) && Enabled(cfg, Told(cfg, x, evs).state, ev) && Fits(cfg, Told(cfg, x, evs).state, ev)
    ensures IsStory(cfg, x, evs + [ev]) && Told(cfg, x, evs + [ev]) == After(cfg, Told(cfg, x, evs), ev)
    decreases |evs|
  {
    hide Enabled, Fits, After;
    if evs == [] {
      assert (evs + [ev])[1..] == [];
    } else {
      assert (evs + [ev])[1..] == evs[1..] + [ev];
      StoryExtends(cfg, After(cfg, x, evs[0]), evs[1..], ev);
    }
  }

  /** Every story is told of a run. */
  lemma {:induction false} StoryIsRun(cfg: Config, x: Chronicle, evs: seq<Event>)
    requires IsStory(cfg, x, evs)
    ensures IsRun(cfg, x.state, evs) && Reached(cfg, x.state, evs) == Told(cfg, x, evs).state
    decreases |evs|
  {
    hide Enabled, Fits, Ops;
    if evs != [] {
      StoryIsRun(cfg, After(cfg, x, evs[0]), evs[1..]);
    }
  }

  lemma RecountedReachable(cfg: Config, x: Chronicle)
    requires Recounted(cfg, x)
    ensures Reachable(cfg, x.state)
  {
    hide Init, IsStory, Told, IsRun, Reached;
    var x0: Chronicle, evs: seq<Event> :| Begin(cfg, x0) && IsStory(cfg, x0, evs) && Told(cfg, x0, evs) == x;
    StoryIsRun(cfg, x0, evs);
    assert Init(cfg, x0.state) && IsRun(cfg, x0.state, evs) && Reached(cfg, x0.state, evs) == x.state;
  }

  /**
  What a fresh wait should be told about a latest lifetime. While a failed
  completion of it awaits its recovery, the entry may still be queued, or marked
  as deleted; otherwise the post shows already.
  */
  function Expected(d: Disk, id: string, life: Life, posted: map<string, HistoryRecord>): L.AwaitState
    requires life.fate.Posted? ==> life.incarnation in posted
  {
    match life.fate
    case Queued => L.Pending(AwaitCursor(|d.history|, life.incarnation))
    case Deleted => L.Unknown
    case Posted =>
      if PendingFor(d, id, life.incarnation) && id in d.entries then L.Pending(AwaitCursor(|d.history|, life.incarnation))
      else if PendingFor(d, id, life.incarnation) && id in d.tombstones then L.Unknown
      else L.Posted(posted[life.incarnation].commentUrl, posted[life.incarnation].postedAt)
  }

  /**
  In every run with identifiers reused after deletion or posting, with crashes,
  failing operations and recoveries, a fresh wait is told exactly what became
  of the latest lifetime: queued, deleted, or posted with that lifetime's own
  URL. Only while a failed completion of that lifetime awaits its recovery may
  the post not show yet, and then exactly as long as the entry is queued or its
  deletion is marked.
  */
  lemma {:induction false} FreshWaitIsExact(cfg: Config, x: Chronicle, id: string)
    requires Recounted(cfg, x) && id in x.latest
    ensures
      var life := x.latest[id];
      && (life.fate.Posted? ==>
        && life.incarnation in x.posted
        && x.posted[life.incarnation].id == id && x.posted[life.incarnation].incarnation == life.incarnation)
      && L.Lookup(cfg.codec, x.state.disk, id, None) == Expected(x.state.disk, id, life, x.posted)
  {
    hide Inv, Lawful, Recounted, Records, Newest, Interrupted;
    RecountedChronicled(cfg, x);
    assert x.state.disk.history[..|x.state.disk.history|] == x.state.disk.history;
  }
}
