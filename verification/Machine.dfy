/**
The daemon as a state machine: clients and the worker act on the queue
directory, any operation may stop after any of its file operations, the worker
may die and restart, and the process may crash and reopen the store.
*/
module Machine {
  import opened Base
  import opened HistoryLog
  import opened QueueOrder
  import opened Scheduling
  import opened Bounds
  import opened Disk
  import opened StoreSteps

  /** The worker has died or not yet recovered, holds nothing, or is posting a claimed entry. */
  datatype Worker = Down | Idle | Posting(entry: StoredEntry)

  /**
  Beside the directory: whether the store is open, the worker, the clock, the
  UUIDs drawn so far, the lifetimes whose completion was journaled, and the
  times of journaled posts and released failed attempts.
  */
  datatype State = State(
    disk: Disk,
    open: bool,
    worker: Worker,
    clock: U64,
    used: set<string>,
    completed: set<string>,
    activity: set<U64>)

  datatype Config = Config(codec: Codec, fixed: FixedBytes, cooldown: U64)

  /**
  `done` counts the file operations that took effect, and `ok` is what the
  operation reported: success needs all of them, but the source may also report
  failure after the last one, when only a directory sync fails. Nothing follows
  the removal that ends a deletion, so a deletion that removed its entry reports
  success. A worker may die at any time without the process.
  */
  datatype Event =
    | Crash
    | Die
    | Reopen(uuid: string -> string, done: nat, ok: bool)
    | Restart(uuid: string -> string, done: nat, ok: bool)
    | Claim(now: U64, token: string, done: nat, ok: bool)
    | Complete(now: U64, url: Option<string>, tokenHash: string, attemptId: string, done: nat, ok: bool)
    | Record(recordedAt: U64, tokenHash: string, error: string, attemptId: string, done: nat, ok: bool)
    | Release(now: U64, done: nat, ok: bool)
    | Put(id: string, incarnation: string, request: CommentRequest, flutter: U64, immediate: bool, now: U64, done: nat, ok: bool)
    | Bump(id: string, done: nat, ok: bool)
    | Bust(id: string, done: nat, ok: bool)
    | Del(id: string, done: nat, ok: bool)

  /** Events that are no operation of the store. */
  predicate Sudden(ev: Event) {
    ev.Crash? || ev.Die?
  }

  predicate NewUuid(s: State, u: string) {
    u !in s.used && |u| == UUID_CHARS
  }

  ghost predicate NewUuids(s: State, uuid: string -> string) {
    Uuids(uuid, s.disk.entries) && forall id :: Nameless(s.disk.entries, id) ==> uuid(id) !in s.used
  }

  function Drawn(s: State, uuid: string -> string): set<string> {
    s.used + set id | id in s.disk.entries && Nameless(s.disk.entries, id) :: uuid(id)
  }

  function Failure(s: State, ev: Event): HistoryRecord
    requires ev.Record? && s.worker.Posting?
  {
    FailureRecord(s.worker.entry, ev.tokenHash, ev.recordedAt, ev.error, ev.attemptId)
  }

  function Success(s: State, ev: Event): HistoryRecord
    requires ev.Complete? && s.worker.Posting?
  {
    SuccessRecord(s.worker.entry, ev.tokenHash, ev.now, ev.url, ev.attemptId)
  }

  /** The file operations of an event's store operation. */
  ghost function Ops(cfg: Config, s: State, ev: Event): seq<FileOp>
    requires WellKeyed(s.disk.entries)
  {
    var d := s.disk;
    match ev
    case Crash => []
    case Die => []
    case Reopen(uuid, _, _) => OpenOps(cfg.codec, d, uuid)
    case Restart(uuid, _, _) => RecoverOps(cfg.codec, d, uuid)
    case Claim(now, token, _, _) => ClaimOps(d, cfg.cooldown, now, token)
    case Complete(_, _, _, _, _, _) =>
      if s.worker.Posting? then CompleteOps(cfg.codec, d, s.worker.entry, Success(s, ev)) else []
    case Record(_, _, _, _, _, _) =>
      if s.worker.Posting? then AppendOps(AppendedBytes(cfg.codec, d.history, Failure(s, ev))) else []
    case Release(now, _, _) =>
      if s.worker.Posting? && s.worker.entry.claimToken.Some?
      then ReleaseOps(d, s.worker.entry.id, s.worker.entry.claimToken.value, now) else []
    case Put(id, incarnation, request, flutter, immediate, now, _, _) =>
      [PutEntry(NewEntry(d, id, incarnation, request, cfg.cooldown, flutter, immediate, now))]
    case Bump(id, _, _) => BumpOps(d, id)
    case Bust(id, _, _) => BustOps(d, id)
    case Del(id, _, _) => DelOps(d, id)
  }

  ghost predicate Enabled(cfg: Config, s: State, ev: Event) {
    && WellKeyed(s.disk.entries)
    && (Sudden(ev) || (ev.done <= |Ops(cfg, s, ev)| && (ev.ok ==> ev.done == |Ops(cfg, s, ev)|)))
    && match ev
       case Crash => true
       case Die => s.open
       case Reopen(uuid, _, _) => !s.open && NewUuids(s, uuid)
       case Restart(uuid, _, _) => s.open && s.worker.Down? && NewUuids(s, uuid)
       case Claim(now, token, _, _) => s.open && s.worker.Idle? && s.clock <= now && NewUuid(s, token)
       case Complete(now, _, _, _, _, _) => s.worker.Posting? && s.clock <= now
       case Record(_, _, _, _, _, _) => s.worker.Posting?
       case Release(now, _, _) => s.worker.Posting? && s.clock <= now
       case Put(id, incarnation, request, flutter, immediate, now, _, _) =>
         && s.open && s.clock <= now && NewUuid(s, incarnation) && id !in s.disk.entries
         && Refusal(cfg.fixed, s.disk.entries, NewEntry(s.disk, id, incarnation, request, cfg.cooldown, flutter, immediate, now)) == None
       case Bump(_, _, _) => s.open
       case Bust(_, _, _) => s.open
       case Del(_, done, ok) => s.open && (done == 2 ==> ok)
  }

  /** The directory an event leaves. */
  ghost function Left(cfg: Config, s: State, ev: Event): Disk
    requires Enabled(cfg, s, ev)
  {
    if Sudden(ev) then s.disk else Run(s.disk, Ops(cfg, s, ev)[..ev.done])
  }

  /**
  A worker whose operation failed exits, and recovers before it claims again.
  Only recording a failed attempt may fail without ending the worker.
  */
  ghost function Step(cfg: Config, s: State, ev: Event): State
    requires Enabled(cfg, s, ev)
  {
    var d := Left(cfg, s, ev);
    match ev
    case Crash => s.(open := false, worker := Down)
    case Die => s.(worker := Down)
    case Reopen(uuid, _, ok) => s.(disk := d, open := ok, used := Drawn(s, uuid))
    case Restart(uuid, _, ok) => s.(disk := d, worker := if ok then Idle else Down, used := Drawn(s, uuid))
    case Claim(now, token, _, ok) =>
      var ops := Ops(cfg, s, ev);
      s.(disk := d, clock := now, used := s.used + {token},
         worker := if !ok then Down else if ops == [] then Idle else Posting(ops[0].entry))
    case Complete(now, _, _, _, done, ok) =>
      s.(disk := d, clock := now, worker := if ok then Idle else Down,
         completed := if done > 0 then s.completed + {s.worker.entry.incarnation} else s.completed,
         activity := if done > 0 then s.activity + {now} else s.activity)
    case Record(_, _, _, _, _, _) => s.(disk := d)
    case Release(now, done, ok) =>
      s.(disk := d, clock := now, worker := if ok then Idle else Down,
         activity := if done > 0 then s.activity + {now} else s.activity)
    case Put(_, incarnation, _, _, _, now, _, _) => s.(disk := d, clock := now, used := s.used + {incarnation})
    case Bump(_, _, _) => s.(disk := d)
    case Bust(_, _, _) => s.(disk := d)
    case Del(_, _, _) => s.(disk := d)
  }

  /** A directory nothing has claimed or journaled; legacy entries may lack a lifetime. */
  ghost predicate Init(cfg: Config, s: State) {
    && !s.open && s.worker == Down
    && Admitted(cfg.fixed, s.disk.entries)
    && s.disk.journal == None && NothingClaimed(s.disk)
    && Lives(s.disk.entries, s.used)
    && s.completed == {} && s.activity == {}
  }

  /** Lifetimes come from drawn UUIDs and are not shared. */
  ghost predicate Lives(m: Entries, used: set<string>) {
    && (forall id :: id in m && m[id].incarnation != "" ==> m[id].incarnation in used)
    && (forall a, b :: a in m && b in m && a != b && m[a].incarnation != "" ==> m[a].incarnation != m[b].incarnation)
  }

  ghost predicate AllLive(m: Entries) {
    forall id :: id in m ==> m[id].incarnation != ""
  }

  /** Every claimed entry is the one with this identifier, token and lifetime. */
  ghost predicate OnlyClaim(m: Entries, id: string, token: string, incarnation: string) {
    forall x :: x in m && m[x].claimToken.Some? ==> x == id && m[x].claimToken.value == token && m[x].incarnation == incarnation
  }

  ghost predicate OneClaim(m: Entries) {
    forall a, b :: a in m && b in m && m[a].claimToken.Some? && m[b].claimToken.Some? ==> a == b
  }

  /** Only the journaled, still claimed entry has a completed lifetime. */
  ghost predicate CompletedGone(m: Entries, journal: Option<Journal>, completed: set<string>) {
    && "" !in completed
    && forall id :: id in m && m[id].incarnation in completed ==> journal.Some? && m[id].claimToken.Some?
  }

  ghost predicate JournalFits(m: Entries, j: Journal, completed: set<string>) {
    && j.claimToken.Some? && j.history.Some?
    && OnlyClaim(m, j.id, j.claimToken.value, j.history.value.incarnation)
    && j.history.value.incarnation in completed
  }

  ghost predicate WorkerFits(s: State) {
    var m := s.disk.entries;
    && (!s.worker.Down? ==> s.open && s.disk.journal == None)
    && (s.worker.Idle? ==> NothingClaimed(s.disk))
    && (s.worker.Posting? ==>
      var e := s.worker.entry;
      && e.claimToken.Some? && e.incarnation != "" && e.incarnation in s.used && e.incarnation !in s.completed
      && OnlyClaim(m, e.id, e.claimToken.value, e.incarnation)
      && forall id :: id in m && m[id].incarnation == e.incarnation ==> m[id].claimToken.Some?)
  }

  ghost predicate QueueInv(s: State) {
    var m := s.disk.entries;
    && Lives(m, s.used) && s.completed <= s.used
    && (s.open ==> AllLive(m))
    && OneClaim(m)
    && CompletedGone(m, s.disk.journal, s.completed)
    && (s.disk.journal.Some? ==> JournalFits(m, s.disk.journal.value, s.completed))
    && WorkerFits(s)
  }

  /** An activity the next claim will see, now or once the journal is reconciled. */
  predicate Covered(d: Disk, t: U64) {
    || (d.lastPost.Some? && t <= d.lastPost.value)
    || (d.lastAttempt.Some? && t <= d.lastAttempt.value)
    || (d.journal.Some? && t <= d.journal.value.postedAt)
  }

  ghost predicate TimeInv(s: State) {
    && (forall t :: t in s.activity ==> t <= s.clock && Covered(s.disk, t))
    && (s.disk.journal.Some? ==> forall t :: t in s.activity ==> t <= s.disk.journal.value.postedAt)
  }

  ghost predicate Inv(cfg: Config, s: State) {
    && Admitted(cfg.fixed, s.disk.entries)
    && QueueInv(s)
    && TimeInv(s)
  }

  lemma InitInv(cfg: Config, s: State)
    requires Init(cfg, s)
    ensures Inv(cfg, s)
  {
    hide Admitted;
  }

  // Elementary effects on the queue.

  lemma RemoveKeeps(s: State, id: string)
    requires QueueInv(s)
    ensures QueueInv(s.(disk := s.disk.(entries := s.disk.entries - {id})))
  {
  }

  lemma ReorderKeeps(s: State, id: string, order: I64)
    requires QueueInv(s) && id in s.disk.entries
    ensures QueueInv(s.(disk := s.disk.(entries := s.disk.entries[id := s.disk.entries[id].(order := order)])))
  {
  }

  lemma AddKeeps(s: State, e: StoredEntry)
    requires QueueInv(s) && e.id !in s.disk.entries
    requires e.claimToken == None && e.incarnation != "" && e.incarnation !in s.used
    ensures QueueInv(s.(disk := s.disk.(entries := s.disk.entries[e.id := e]), used := s.used + {e.incarnation}))
  {
  }

  /** The queue invariant does not look at the other files, and knows only more UUIDs. */
  lemma OtherFilesKeep(s: State, d: Disk, used: set<string>)
    requires QueueInv(s) && d.entries == s.disk.entries && d.journal == s.disk.journal && s.used <= used
    ensures QueueInv(s.(disk := d, used := used))
  {
  }

  /** Nor does it look at the clock. */
  lemma LaterKeeps(s: State, clock: U64, activity: set<U64>)
    requires QueueInv(s)
    ensures QueueInv(s.(clock := clock, activity := activity))
  {
  }

  lemma CrashKeeps(cfg: Config, s: State)
    requires Inv(cfg, s)
    ensures Inv(cfg, s.(open := false, worker := Down))
  {
    hide Admitted;
  }

  lemma DieKeeps(cfg: Config, s: State)
    requires Inv(cfg, s)
    ensures Inv(cfg, s.(worker := Down))
  {
    hide Admitted;
  }

  // Recovery.

  lemma {:induction false} ReconcileKeeps(cfg: Config, s: State, k: nat)
    requires Inv(cfg, s) && s.worker.Down? && k <= |ReconcileOps(cfg.codec, s.disk)|
    ensures
      var d' := Run(s.disk, ReconcileOps(cfg.codec, s.disk)[..k]);
      && Inv(cfg, s.(disk := d'))
      && (k == |ReconcileOps(cfg.codec, s.disk)| ==> d'.journal == None)
      && (forall id :: id in s.disk.entries && id !in d'.entries ==> s.disk.entries[id].incarnation in s.completed)
  {
    hide Admitted, ReconcileOps, Run;
    if s.disk.journal.None? {
      NoJournal(cfg.codec, s.disk);
    } else {
      ReconcileEffect(cfg.codec, s.disk, k);
      ReconcileQueue(s, Run(s.disk, ReconcileOps(cfg.codec, s.disk)[..k]));
      RemovalStaysAdmitted(cfg.fixed, s.disk.entries, s.disk.journal.value.id);
    }
  }

  /** Dropping the journaled entry, or not yet, and clearing the journal only after. */
  lemma ReconcileQueue(s: State, d': Disk)
    requires QueueInv(s) && s.worker.Down? && s.disk.journal.Some?
    requires d'.entries == s.disk.entries || (DropOps(s.disk, s.disk.journal.value) != [] && d'.entries == s.disk.entries - {s.disk.journal.value.id})
    requires d'.journal == s.disk.journal || d'.journal == None
    requires d'.journal == None && DropOps(s.disk, s.disk.journal.value) != [] ==> d'.entries == s.disk.entries - {s.disk.journal.value.id}
    ensures QueueInv(s.(disk := d'))
    ensures forall id :: id in s.disk.entries && id !in d'.entries ==> s.disk.entries[id].incarnation in s.completed
  {
    var m, j := s.disk.entries, s.disk.journal.value;
    assert DropOps(s.disk, j) != [] <==> j.id in m && m[j.id].claimToken == j.claimToken;
    assert forall id :: id in m && m[id].claimToken.Some? ==> id == j.id && m[id].claimToken == j.claimToken;
  }

  lemma ReclaimQueue(s: State, m': Entries, uuid: string -> string)
    requires QueueInv(s) && s.worker.Down? && s.disk.journal == None && NewUuids(s, uuid)
    requires WellKeyed(s.disk.entries)
    requires Partly(s.disk.entries, m', uuid)
    ensures QueueInv(s.(disk := s.disk.(entries := m'), used := Drawn(s, uuid)))
  {
    hide Lives;
    var m := s.disk.entries;
    assert forall id :: id in m ==> m'[id].incarnation == m[id].incarnation || (m[id].incarnation == "" && m'[id].incarnation == uuid(id));
    assert forall id :: id in m && m'[id].claimToken.Some? ==> m[id].claimToken.Some?;
    ReclaimLives(s, m', uuid);
  }

  lemma ReclaimLives(s: State, m': Entries, uuid: string -> string)
    requires Lives(s.disk.entries, s.used) && NewUuids(s, uuid) && m'.Keys == s.disk.entries.Keys
    requires forall id :: id in m' ==> (
      || m'[id].incarnation == s.disk.entries[id].incarnation
      || (s.disk.entries[id].incarnation == "" && m'[id].incarnation == uuid(id)))
    ensures Lives(m', Drawn(s, uuid))
  {
    var m := s.disk.entries;
    assert forall id :: id in m ==> m[id].incarnation == "" || m[id].incarnation in s.used;
  }

  lemma {:induction false} ReclaimKeeps(cfg: Config, s: State, uuid: string -> string, k: nat)
    requires Inv(cfg, s) && s.worker.Down? && s.disk.journal == None && NewUuids(s, uuid)
    requires WellKeyed(s.disk.entries) && k <= |ReclaimOps(Queue(s.disk.entries), uuid)|
    ensures
      var ops := ReclaimOps(Queue(s.disk.entries), uuid);
      var d' := Run(s.disk, ops[..k]);
      && d' == s.disk.(entries := d'.entries)
      && Inv(cfg, s.(disk := d', used := Drawn(s, uuid)))
      && s.disk.entries.Keys == d'.entries.Keys
      && (k == |ops| ==> NothingClaimed(d') && AllLive(d'.entries))
      && (k < |ops| ==> ops[k].PutEntry? && Refusal(cfg.fixed, d'.entries, ops[k].entry) == None)
  {
    hide Admitted, Run, QueueInv, Refusal;
    var es := Queue(s.disk.entries);
    QueueStands(s.disk.entries);
    ReclaimEffect(cfg.fixed, s.disk, es, uuid, k);
    var ops := ReclaimOps(es, uuid);
    var d' := Run(s.disk, ops[..k]);
    ReclaimQueue(s, d'.entries, uuid);
    if k == |ops| {
      AllReclaimed(es, s.disk.entries, d'.entries, uuid);
    }
  }

  lemma AllReclaimed(es: seq<StoredEntry>, m: Entries, m': Entries, uuid: string -> string)
    requires m.Keys == m'.Keys && Uuids(uuid, m)
    requires forall id :: id in m ==> exists i :: 0 <= i < |es| && es[i] == m[id]
    requires WellKeyed(m)
    requires forall i :: 0 <= i < |es| ==> es[i].id in m' && m'[es[i].id] == Reclaimed(es[i], uuid)
    ensures forall id :: id in m' ==> m'[id].claimToken == None && m'[id].incarnation != ""
  {
    forall id | id in m' ensures m'[id].claimToken == None && m'[id].incarnation != "" {
      var i :| 0 <= i < |es| && es[i] == m[id];
      assert Nameless(m, id) ==> |uuid(id)| == UUID_CHARS;
    }
  }

  /** Recovery, whole or stopped anywhere, keeps the invariant and removes only completed lifetimes. */
  lemma {:induction false} RecoverKeeps(cfg: Config, s: State, uuid: string -> string, k: nat)
    requires Inv(cfg, s) && s.worker.Down? && NewUuids(s, uuid)
    requires k <= |RecoverOps(cfg.codec, s.disk, uuid)|
    ensures
      var d' := Run(s.disk, RecoverOps(cfg.codec, s.disk, uuid)[..k]);
      && Inv(cfg, s.(disk := d', used := Drawn(s, uuid)))
      && (forall id :: id in s.disk.entries && id !in d'.entries ==> s.disk.entries[id].incarnation in s.completed)
      && (k == |RecoverOps(cfg.codec, s.disk, uuid)| ==> d'.journal == None && NothingClaimed(d') && AllLive(d'.entries))
  {
    hide Admitted, Run, QueueInv, TimeInv, ReconcileOps, ReclaimOps, Lives;
    var a := ReconcileOps(cfg.codec, s.disk);
    var mid := s.(disk := Run(s.disk, a));
    ReconcileKeeps(cfg, s, |a|);
    assert a[..|a|] == a;
    AdmittedKeyed(cfg.fixed, mid.disk.entries);
    var b := ReclaimOps(Queue(mid.disk.entries), uuid);
    assert RecoverOps(cfg.codec, s.disk, uuid) == a + b;
    if k < |a| {
      RunPrefix(s.disk, a, b, k);
      ReconcileKeeps(cfg, s, k);
      DrawnMore(cfg, s.(disk := Run(s.disk, a[..k])), Drawn(s, uuid));
    } else {
      RunPrefixRest(s.disk, a, b, k);
      FewerEntries(cfg, s, uuid, |a|);
      ReclaimKeeps(cfg, mid, uuid, k - |a|);
      var d' := Run(mid.disk, b[..k - |a|]);
      DrawnMore(cfg, mid.(disk := d', used := Drawn(mid, uuid)), Drawn(s, uuid));
    }
  }

  /** Reconciling leaves some of the entries as they were. */
  lemma FewerEntries(cfg: Config, s: State, uuid: string -> string, k: nat)
    requires k <= |ReconcileOps(cfg.codec, s.disk)| && NewUuids(s, uuid)
    ensures
      var mid := s.(disk := Run(s.disk, ReconcileOps(cfg.codec, s.disk)[..k]));
      NewUuids(mid, uuid) && Drawn(mid, uuid) <= Drawn(s, uuid)
  {
    hide ReconcileOps, Run, Uuids;
    ReconcileNameless(cfg.codec, s.disk, uuid, k);
  }

  lemma DrawnMore(cfg: Config, s: State, used: set<string>)
    requires Inv(cfg, s) && s.used <= used
    ensures Inv(cfg, s.(used := used))
  {
    hide Admitted;
    OtherFilesKeep(s, s.disk, used);
  }

  lemma {:induction false} RestartKeeps(cfg: Config, s: State, ev: Event)
    requires ev.Restart? && Inv(cfg, s) && Enabled(cfg, s, ev)
    ensures Inv(cfg, Step(cfg, s, ev))
  {
    hide Admitted, Run, RecoverOps, Lives;
    RecoverKeeps(cfg, s, ev.uuid, ev.done);
  }

  lemma {:induction false} ReopenKeeps(cfg: Config, s: State, ev: Event)
    requires ev.Reopen? && Inv(cfg, s) && Enabled(cfg, s, ev)
    ensures Inv(cfg, Step(cfg, s, ev))
  {
    hide Admitted, Run, RecoverOps, Lives, QueueOrNone;
    var a := RecoverOps(cfg.codec, s.disk, ev.uuid);
    RecoverKeeps(cfg, s, ev.uuid, |a|);
    assert a[..|a|] == a;
    var mid := Run(s.disk, a);
    var u := UnmarkQueuedOps(QueueOrNone(mid.entries), mid.tombstones);
    if ev.done < |a| {
      RunPrefix(s.disk, a, u, ev.done);
      RecoverKeeps(cfg, s, ev.uuid, ev.done);
    } else {
      RunPrefixRest(s.disk, a, u, ev.done);
      UnmarkQueuedEffect(mid, QueueOrNone(mid.entries), mid.tombstones, ev.done - |a|);
    }
  }

  // The worker.

  lemma ClaimQueue(s: State, head: StoredEntry, token: string)
    requires QueueInv(s) && s.worker.Idle? && head.id in s.disk.entries && s.disk.entries[head.id] == head
    ensures
      var e := head.(claimToken := Some(token));
      var d' := s.disk.(entries := s.disk.entries[e.id := e]);
      && QueueInv(s.(disk := d', used := s.used + {token}, worker := Posting(e)))
      && QueueInv(s.(disk := d', used := s.used + {token}, worker := Down))
      && QueueInv(s.(used := s.used + {token}))
      && QueueInv(s.(used := s.used + {token}, worker := Down))
      && head.incarnation !in s.completed
  {
  }

  lemma IdleDown(s: State)
    requires QueueInv(s)
    ensures QueueInv(s.(worker := Down))
  {
  }

  lemma {:induction false} ClaimKeeps(cfg: Config, s: State, ev: Event)
    requires ev.Claim? && Inv(cfg, s) && Enabled(cfg, s, ev)
    ensures Inv(cfg, Step(cfg, s, ev))
  {
    hide Admitted, QueueInv, Run, Refusal;
    var ops := ClaimOps(s.disk, cfg.cooldown, ev.now, ev.token);
    RunShort(s.disk, ops, ev.done);
    LaterKeeps(s, ev.now, s.activity);
    var later := s.(clock := ev.now);
    OtherFilesKeep(later, s.disk, s.used + {ev.token});
    IdleDown(later.(used := s.used + {ev.token}));
    if ops != [] {
      var head := Queue(s.disk.entries)[0];
      assert head in Queue(s.disk.entries);
      ClaimQueue(later, head, ev.token);
      AdmittedEntry(cfg.fixed, s.disk.entries, head.id);
      MutationNeverRefused(cfg.fixed, s.disk.entries, head.(claimToken := Some(ev.token)));
    }
  }

  lemma JournalQueue(s: State, j: Journal)
    requires QueueInv(s) && s.worker.Posting?
    requires j.claimToken == s.worker.entry.claimToken && j.id == s.worker.entry.id
    requires j.history.Some? && j.history.value.incarnation == s.worker.entry.incarnation
    ensures QueueInv(s.(disk := s.disk.(journal := Some(j)), worker := Down, completed := s.completed + {s.worker.entry.incarnation}))
    ensures QueueInv(s.(worker := Down))
  {
  }

  lemma CompleteKeeps(cfg: Config, s: State, ev: Event)
    requires ev.Complete? && Inv(cfg, s) && Enabled(cfg, s, ev)
    ensures Inv(cfg, Step(cfg, s, ev))
    ensures forall id :: id in s.disk.entries && id !in Step(cfg, s, ev).disk.entries ==> s.disk.entries[id].incarnation in Step(cfg, s, ev).completed
  {
    hide Admitted, QueueInv, Run, ReconcileOps;
    var e, r := s.worker.entry, Success(s, ev);
    var j := CompletionJournal(s.disk, e, r);
    JournalQueue(s, j);
    LaterKeeps(s.(worker := Down), ev.now, s.activity);
    if ev.done == 0 {
      assert Run(s.disk, []) == s.disk by { RunShort(s.disk, [], 0); }
    } else {
      var journaled := State(s.disk.(journal := Some(j)), s.open, Down, ev.now, s.used, s.completed + {e.incarnation}, s.activity + {ev.now});
      assert Inv(cfg, journaled) by {
        LaterKeeps(journaled.(clock := s.clock, activity := s.activity), ev.now, journaled.activity);
      }
      var ops := ReconcileOps(cfg.codec, journaled.disk);
      RunPrefixRest(s.disk, [SetJournal(j)], ops, ev.done);
      RunShort(s.disk, [SetJournal(j)], 1);
      ReconcileKeeps(cfg, journaled, ev.done - 1);
      if ev.done == 1 + |ops| {
        var d' := Run(journaled.disk, ops[..ev.done - 1]);
        assert journaled.open && JournalFits(journaled.disk.entries, j, journaled.completed) by { JournalFacts(journaled); PostingOpen(s); }
        NowIdle(journaled.(disk := d'), cfg.codec, journaled.disk);
      }
    }
  }

  lemma JournalFacts(s: State)
    requires QueueInv(s) && s.disk.journal.Some?
    ensures JournalFits(s.disk.entries, s.disk.journal.value, s.completed)
  {
  }

  lemma PostingOpen(s: State)
    requires QueueInv(s) && s.worker.Posting?
    ensures s.open && s.disk.journal == None && s.worker.entry.claimToken.Some?
  {
  }

  /** After a reconciled journal nothing is claimed, so an open store's worker is idle. */
  lemma {:induction false} NowIdle(s: State, c: Codec, before: Disk)
    requires QueueInv(s) && s.worker.Down? && s.open && s.disk.journal == None
    requires before.journal.Some? && JournalFits(before.entries, before.journal.value, s.completed)
    requires s.disk == Run(before, ReconcileOps(c, before)[..|ReconcileOps(c, before)|])
    ensures QueueInv(s.(worker := Idle))
  {
    hide ReconcileOps, Run, Lives;
    ReconcileEffect(c, before, |ReconcileOps(c, before)|);
    var m, j := before.entries, before.journal.value;
    assert forall id :: id in m && m[id].claimToken.Some? ==> id == j.id && m[id].claimToken == j.claimToken;
  }

  lemma ReleaseQueue(s: State, lastAttempt: Option<U64>)
    requires QueueInv(s) && s.worker.Posting?
    ensures
      var e := s.worker.entry;
      var d := s.disk.(lastAttempt := lastAttempt);
      && QueueInv(s.(disk := d, worker := Down))
      && (if e.id in d.entries && d.entries[e.id].claimToken == e.claimToken
          then
            var released := d.(entries := d.entries[e.id := d.entries[e.id].(claimToken := None)]);
            QueueInv(s.(disk := released, worker := Idle)) && QueueInv(s.(disk := released, worker := Down))
          else QueueInv(s.(disk := d, worker := Idle)))
  {
  }

  lemma RecordKeeps(cfg: Config, s: State, ev: Event)
    requires ev.Record? && Inv(cfg, s) && Enabled(cfg, s, ev)
    ensures Inv(cfg, Step(cfg, s, ev))
  {
    hide Admitted, QueueInv, Run, AppendOps, AppendedBytes;
    RunAppend(s.disk, AppendedBytes(cfg.codec, s.disk.history, Failure(s, ev)), ev.done);
    OtherFilesKeep(s, Left(cfg, s, ev), s.used);
  }

  lemma ReleaseKeeps(cfg: Config, s: State, ev: Event)
    requires ev.Release? && Inv(cfg, s) && Enabled(cfg, s, ev)
    ensures Inv(cfg, Step(cfg, s, ev))
  {
    hide Admitted, QueueInv, Run, Refusal;
    var e := s.worker.entry;
    PostingOpen(s);
    var act := if ev.done > 0 then s.activity + {ev.now} else s.activity;
    LaterKeeps(s, ev.now, act);
    var later := s.(clock := ev.now, activity := act);
    var ops := ReleaseOps(s.disk, e.id, e.claimToken.value, ev.now);
    ReleaseQueue(later, s.disk.lastAttempt);
    if ops == [] {
      RunShort(s.disk, ops, 0);
    } else {
      RunPair(s.disk, ops[0], ops[1], ev.done);
      assert ops == [ops[0], ops[1]];
      ReleaseQueue(later, Some(ops[0].at));
      AdmittedEntry(cfg.fixed, s.disk.entries, e.id);
      MutationNeverRefused(cfg.fixed, s.disk.entries, s.disk.entries[e.id].(claimToken := None));
    }
  }

  // The clients.

  lemma {:induction false} PutKeeps(cfg: Config, s: State, ev: Event)
    requires ev.Put? && Inv(cfg, s) && Enabled(cfg, s, ev)
    ensures Inv(cfg, Step(cfg, s, ev))
  {
    hide Admitted, QueueInv, Run, Refusal;
    var e := NewEntry(s.disk, ev.id, ev.incarnation, ev.request, cfg.cooldown, ev.flutter, ev.immediate, ev.now);
    RunShort(s.disk, [PutEntry(e)], ev.done);
    LaterKeeps(s, ev.now, s.activity);
    OtherFilesKeep(s.(clock := ev.now), s.disk, s.used + {ev.incarnation});
    AddKeeps(s.(clock := ev.now), e);
    PutStaysAdmitted(cfg.fixed, s.disk.entries, e);
  }

  lemma ReorderEventKeeps(cfg: Config, s: State, ev: Event)
    requires (ev.Bump? || ev.Bust?) && Inv(cfg, s) && Enabled(cfg, s, ev)
    ensures Inv(cfg, Step(cfg, s, ev))
  {
    hide Admitted, QueueInv, Run, Refusal;
    var ops := if ev.Bump? then BumpOps(s.disk, ev.id) else BustOps(s.disk, ev.id);
    RunShort(s.disk, ops, ev.done);
    if ops != [] {
      AdmittedEntry(cfg.fixed, s.disk.entries, ev.id);
      ReorderKeeps(s, ev.id, ops[0].entry.order);
      MutationNeverRefused(cfg.fixed, s.disk.entries, ops[0].entry);
    }
  }

  lemma DelKeeps(cfg: Config, s: State, ev: Event)
    requires ev.Del? && Inv(cfg, s) && Enabled(cfg, s, ev)
    ensures Inv(cfg, Step(cfg, s, ev))
  {
    hide Admitted, QueueInv, Run;
    var ops := DelOps(s.disk, ev.id);
    if ops == [] {
      RunShort(s.disk, ops, 0);
    } else {
      RunPair(s.disk, ops[0], ops[1], ev.done);
      assert ops == [ops[0], ops[1]];
      var d := Apply(s.disk, ops[0]);
      OtherFilesKeep(s, d, s.used);
      RemoveKeeps(s.(disk := d), ev.id);
      RemovalStaysAdmitted(cfg.fixed, s.disk.entries, ev.id);
    }
  }

  lemma StepKeeps(cfg: Config, s: State, ev: Event)
    requires Inv(cfg, s) && Enabled(cfg, s, ev)
    ensures Inv(cfg, Step(cfg, s, ev))
  {
    hide Inv, Ops, Run;
    match ev
    case Crash => CrashKeeps(cfg, s);
    case Die => DieKeeps(cfg, s);
    case Reopen(_, _, _) => ReopenKeeps(cfg, s, ev);
    case Restart(_, _, _) => RestartKeeps(cfg, s, ev);
    case Claim(_, _, _, _) => ClaimKeeps(cfg, s, ev);
    case Complete(_, _, _, _, _, _) => CompleteKeeps(cfg, s, ev);
    case Record(_, _, _, _, _, _) => RecordKeeps(cfg, s, ev);
    case Release(_, _, _) => ReleaseKeeps(cfg, s, ev);
    case Put(_, _, _, _, _, _, _, _) => PutKeeps(cfg, s, ev);
    case Bump(_, _, _) => ReorderEventKeeps(cfg, s, ev);
    case Bust(_, _, _) => ReorderEventKeeps(cfg, s, ev);
    case Del(_, _, _) => DelKeeps(cfg, s, ev);
  }

  /** A run: each event is enabled where it happens. */
  ghost predicate IsRun(cfg: Config, s: State, evs: seq<Event>)
    decreases |evs|
  {
    evs == [] || (Enabled(cfg, s, evs[0]) && IsRun(cfg, Step(cfg, s, evs[0]), evs[1..]))
  }

  ghost function Reached(cfg: Config, s: State, evs: seq<Event>): State
    requires IsRun(cfg, s, evs)
    decreases |evs|
  {
    if evs == [] then s else Reached(cfg, Step(cfg, s, evs[0]), evs[1..])
  }

  lemma {:induction false} RunKeeps(cfg: Config, s: State, evs: seq<Event>)
    requires Inv(cfg, s) && IsRun(cfg, s, evs)
    ensures Inv(cfg, Reached(cfg, s, evs))
    ensures s.completed <= Reached(cfg, s, evs).completed && s.activity <= Reached(cfg, s, evs).activity
    decreases |evs|
  {
    hide Inv, Enabled;
    if evs != [] {
      StepKeeps(cfg, s, evs[0]);
      RunKeeps(cfg, Step(cfg, s, evs[0]), evs[1..]);
    }
  }

  /** A state that some run reaches. */
  ghost predicate Reachable(cfg: Config, s: State) {
    exists s0: State, evs: seq<Event> :: Init(cfg, s0) && IsRun(cfg, s0, evs) && Reached(cfg, s0, evs) == s
  }

  lemma {:induction false} ReachableInv(cfg: Config, s: State)
    requires Reachable(cfg, s)
    ensures Inv(cfg, s)
  {
    hide Inv, Init, IsRun, Reached;
    var s0: State, evs: seq<Event> :| Init(cfg, s0) && IsRun(cfg, s0, evs) && Reached(cfg, s0, evs) == s;
    InitInv(cfg, s0);
    RunKeeps(cfg, s0, evs);
  }

  lemma ReachableStep(cfg: Config, s: State, ev: Event)
    requires Reachable(cfg, s) && Enabled(cfg, s, ev)
    ensures Reachable(cfg, Step(cfg, s, ev))
  {
    hide Enabled, Step, Init;
    var s0: State, evs: seq<Event> :| Init(cfg, s0) && IsRun(cfg, s0, evs) && Reached(cfg, s0, evs) == s;
    RunExtends(cfg, s0, evs, ev);
    assert Init(cfg, s0) && IsRun(cfg, s0, evs + [ev]) && Reached(cfg, s0, evs + [ev]) == Step(cfg, s, ev);
  }

  lemma {:induction false} RunExtends(cfg: Config, s: State, evs: seq<Event>, ev: Event)
    requires IsRun(cfg, s, evs) && Enabled(cfg, Reached(cfg, s, evs), ev)
    ensures IsRun(cfg, s, evs + [ev]) && Reached(cfg, s, evs + [ev]) == Step(cfg, Reached(cfg, s, evs), ev)
    decreases |evs|
  {
    hide Enabled, Step;
    if evs == [] {
      assert (evs + [ev])[1..] == [];
    } else {
      assert (evs + [ev])[1..] == evs[1..] + [ev];
      RunExtends(cfg, Step(cfg, s, evs[0]), evs[1..], ev);
    }
  }

  lemma {:induction false} ReachableRun(cfg: Config, s: State, evs: seq<Event>)
    requires Reachable(cfg, s) && IsRun(cfg, s, evs)
    ensures Reachable(cfg, Reached(cfg, s, evs))
    decreases |evs|
  {
    hide Reachable, Enabled, Step;
    if evs != [] {
      ReachableStep(cfg, s, evs[0]);
      ReachableRun(cfg, Step(cfg, s, evs[0]), evs[1..]);
    }
  }

  /** An event that claims an entry. */
  ghost predicate Claims(cfg: Config, s: State, ev: Event) {
    ev.Claim? && Enabled(cfg, s, ev) && ev.done > 0
  }

  /** What makes claiming this entry now safe. */
  ghost predicate SafeClaim(cfg: Config, s: State, e: StoredEntry, now: U64) {
    && s.disk.journal == None && NothingClaimed(s.disk)
    && e.id in s.disk.entries && s.disk.entries[e.id] == e.(claimToken := None)
    && e.incarnation !in s.completed
    && now >= e.notBefore
    && forall t :: t in s.activity ==> now >= SatAdd(SatAdd(t, cfg.cooldown), e.flutterSeconds)
  }

  /**
  In every run, a claim is issued only with no journal and nothing else claimed,
  for a lifetime whose completion was never journaled, no earlier than every
  journaled post and every released failed attempt plus cooldown plus flutter,
  and no earlier than the entry's own floor.
  */
  lemma {:induction false} EveryClaimIsSafe(cfg: Config, s: State, ev: Event)
    requires Reachable(cfg, s) && Claims(cfg, s, ev)
    ensures
      var ops := Ops(cfg, s, ev);
      && ops != [] && ops[0].PutEntry? && SafeClaim(cfg, s, ops[0].entry, ev.now)
      && (ev.ok ==> Step(cfg, s, ev).worker == Posting(ops[0].entry))
  {
    hide Admitted, Run, Reachable;
    ReachableInv(cfg, s);
    var head := Queue(s.disk.entries)[0];
    assert head in Queue(s.disk.entries);
    forall t | t in s.activity ensures ev.now >= SatAdd(SatAdd(t, cfg.cooldown), head.flutterSeconds) {
      DueRespectsCooldown(head, s.disk.lastPost, s.disk.lastAttempt, cfg.cooldown, ev.now, t);
    }
  }

  /**
  In every reachable state at most one entry is claimed, all bytes and
  reservations are in budget, and without a journal no posted lifetime is queued.
  */
  lemma {:induction false} EveryStateIsSound(cfg: Config, s: State)
    requires Reachable(cfg, s)
    ensures OneClaim(s.disk.entries) && Admitted(cfg.fixed, s.disk.entries)
    ensures s.disk.journal.None? ==> forall id :: id in s.disk.entries ==> s.disk.entries[id].incarnation !in s.completed
  {
    hide Admitted, Reachable;
    ReachableInv(cfg, s);
  }

  /**
  In every run, recovery and completion remove no entry but one whose own
  lifetime was journaled as posted: a same-identifier replacement stays.
  */
  lemma {:induction false} OnlyPostedIsRemoved(cfg: Config, s: State, ev: Event, id: string)
    requires Reachable(cfg, s) && Enabled(cfg, s, ev) && !ev.Del?
    requires id in s.disk.entries && id !in Step(cfg, s, ev).disk.entries
    ensures s.disk.entries[id].incarnation in Step(cfg, s, ev).completed
  {
    hide Inv, Reachable;
    ReachableInv(cfg, s);
    RemovedWasPosted(cfg, s, ev, id);
  }

  lemma {:induction false} RemovedWasPosted(cfg: Config, s: State, ev: Event, id: string)
    requires Inv(cfg, s) && Enabled(cfg, s, ev) && !ev.Del?
    requires id in s.disk.entries && id !in Step(cfg, s, ev).disk.entries
    ensures s.disk.entries[id].incarnation in Step(cfg, s, ev).completed
  {
    hide Inv, Ops, Run, Enabled;
    match ev
    case Reopen(_, _, _) => ReopenRemoves(cfg, s, ev, id);
    case Restart(_, _, _) => RestartRemoves(cfg, s, ev, id);
    case Complete(_, _, _, _, _, _) => CompleteRemoves(cfg, s, ev, id);
    case _ => OthersRemoveNothing(cfg, s, ev);
  }

  lemma {:induction false} RestartRemoves(cfg: Config, s: State, ev: Event, id: string)
    requires ev.Restart? && Inv(cfg, s) && Enabled(cfg, s, ev)
    requires id in s.disk.entries && id !in Step(cfg, s, ev).disk.entries
    ensures s.disk.entries[id].incarnation in Step(cfg, s, ev).completed
  {
    hide Admitted, Run, RecoverOps, Lives;
    RecoverKeeps(cfg, s, ev.uuid, ev.done);
  }

  lemma CompleteRemoves(cfg: Config, s: State, ev: Event, id: string)
    requires ev.Complete? && Inv(cfg, s) && Enabled(cfg, s, ev)
    requires id in s.disk.entries && id !in Step(cfg, s, ev).disk.entries
    ensures s.disk.entries[id].incarnation in Step(cfg, s, ev).completed
  {
    hide Inv, Ops, Run;
    CompleteKeeps(cfg, s, ev);
  }

  lemma {:induction false} ReopenRemoves(cfg: Config, s: State, ev: Event, id: string)
    requires ev.Reopen? && Inv(cfg, s) && Enabled(cfg, s, ev)
    requires id in s.disk.entries && id !in Step(cfg, s, ev).disk.entries
    ensures s.disk.entries[id].incarnation in Step(cfg, s, ev).completed
  {
    hide Admitted, Run, RecoverOps, Lives, QueueOrNone;
    var a := RecoverOps(cfg.codec, s.disk, ev.uuid);
    RecoverKeeps(cfg, s, ev.uuid, |a|);
    assert a[..|a|] == a;
    var mid := Run(s.disk, a);
    var u := UnmarkQueuedOps(QueueOrNone(mid.entries), mid.tombstones);
    if ev.done < |a| {
      RunPrefix(s.disk, a, u, ev.done);
      RecoverKeeps(cfg, s, ev.uuid, ev.done);
    } else {
      RunPrefixRest(s.disk, a, u, ev.done);
      UnmarkQueuedEffect(mid, QueueOrNone(mid.entries), mid.tombstones, ev.done - |a|);
    }
  }

  lemma OthersRemoveNothing(cfg: Config, s: State, ev: Event)
    requires Inv(cfg, s) && Enabled(cfg, s, ev)
    requires !ev.Del? && !ev.Reopen? && !ev.Restart? && !ev.Complete?
    ensures s.disk.entries.Keys <= Step(cfg, s, ev).disk.entries.Keys
  {
    hide Inv, Run, AppendOps;
    if ev.Record? {
      RunAppend(s.disk, AppendedBytes(cfg.codec, s.disk.history, Failure(s, ev)), ev.done);
    } else if !Sudden(ev) {
      var ops := Ops(cfg, s, ev);
      if |ops| <= 1 {
        RunShort(s.disk, ops, ev.done);
      } else {
        RunPair(s.disk, ops[0], ops[1], ev.done);
        assert ops == [ops[0], ops[1]];
      }
    }
  }

  /**
  No limit refuses a claim, a release, a bump or a bust of an admitted entry in
  any reachable state.
  */
  lemma {:induction false} MutationsAreNeverRefused(cfg: Config, s: State, ev: Event, k: nat)
    requires Reachable(cfg, s) && Enabled(cfg, s, ev)
    requires ev.Claim? || ev.Release? || ev.Bump? || ev.Bust?
    requires k < |Ops(cfg, s, ev)| && Ops(cfg, s, ev)[k].PutEntry?
    ensures Refusal(cfg.fixed, s.disk.entries, Ops(cfg, s, ev)[k].entry) == None
  {
    hide Inv, Refusal, Reachable;
    ReachableInv(cfg, s);
    RewriteAccepted(cfg, s, ev, k);
  }

  lemma RewriteAccepted(cfg: Config, s: State, ev: Event, k: nat)
    requires Inv(cfg, s) && Enabled(cfg, s, ev)
    requires ev.Claim? || ev.Release? || ev.Bump? || ev.Bust?
    requires k < |Ops(cfg, s, ev)| && Ops(cfg, s, ev)[k].PutEntry?
    ensures Refusal(cfg.fixed, s.disk.entries, Ops(cfg, s, ev)[k].entry) == None
  {
    hide Refusal, QueueInv, TimeInv, Admitted;
    var e := Ops(cfg, s, ev)[k].entry;
    if ev.Claim? {
      assert Queue(s.disk.entries)[0] in Queue(s.disk.entries);
    }
    AdmittedKeyed(cfg.fixed, s.disk.entries);
    AdmittedEntry(cfg.fixed, s.disk.entries, e.id);
    MutationNeverRefused(cfg.fixed, s.disk.entries, e);
  }

  /** Nor is any rewrite of a recovery refused, where that recovery has got to. */
  lemma {:induction false} RecoveryIsNeverRefused(cfg: Config, s: State, uuid: string -> string, k: nat)
    requires Reachable(cfg, s) && s.worker.Down? && NewUuids(s, uuid)
    requires k < |RecoverOps(cfg.codec, s.disk, uuid)| && RecoverOps(cfg.codec, s.disk, uuid)[k].PutEntry?
    ensures
      var ops := RecoverOps(cfg.codec, s.disk, uuid);
      Refusal(cfg.fixed, Run(s.disk, ops[..k]).entries, ops[k].entry) == None
  {
    hide Inv, Refusal, Reachable, RecoverOps, Run, NewUuids;
    ReachableInv(cfg, s);
    RecoverAccepted(cfg, s, uuid, k);
  }

  lemma {:induction false} RecoverAccepted(cfg: Config, s: State, uuid: string -> string, k: nat)
    requires Inv(cfg, s) && s.worker.Down? && NewUuids(s, uuid)
    requires k < |RecoverOps(cfg.codec, s.disk, uuid)| && RecoverOps(cfg.codec, s.disk, uuid)[k].PutEntry?
    ensures
      var ops := RecoverOps(cfg.codec, s.disk, uuid);
      Refusal(cfg.fixed, Run(s.disk, ops[..k]).entries, ops[k].entry) == None
  {
    hide Admitted, Run, QueueInv, TimeInv, ReconcileOps, ReclaimOps, Refusal;
    var a := ReconcileOps(cfg.codec, s.disk);
    ReconcileWritesNoEntry(cfg.codec, s.disk);
    var mid := s.(disk := Run(s.disk, a));
    ReconcileKeeps(cfg, s, |a|);
    assert a[..|a|] == a;
    AdmittedKeyed(cfg.fixed, mid.disk.entries);
    var b := ReclaimOps(Queue(mid.disk.entries), uuid);
    RunPrefixRest(s.disk, a, b, k);
    FewerEntries(cfg, s, uuid, |a|);
    ReclaimKeeps(cfg, mid, uuid, k - |a|);
  }

  lemma ReconcileWritesNoEntry(c: Codec, d: Disk)
    ensures forall i :: 0 <= i < |ReconcileOps(c, d)| ==> !ReconcileOps(c, d)[i].PutEntry?
  {
    if d.journal.Some? {
      var j := d.journal.value;
      if j.history.Some? {
        AppendOpsAppend(AppendedBytes(c, d.history, j.history.value));
      }
    }
  }

  lemma {:induction false} AppendOpsAppend(bytes: seq<byte>)
    ensures forall i :: 0 <= i < |AppendOps(bytes)| ==> AppendOps(bytes)[i].AppendByte?
  {
    if bytes != [] {
      AppendOpsAppend(bytes[1..]);
    }
  }
}
