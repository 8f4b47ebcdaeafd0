/**
What failing operations mean for waits. A mutation that reports failure leaves
some or all of its file operations done and does not advance the version; here
every such remainder is shown to be one that await resolution tolerates, and a
parked wait is shown to be stale exactly after the ones that removed its entry.
*/
module AwaitFailures {
  import opened Base
  import opened HistoryLog
  import opened ReverseScan
  import opened QueueOrder
  import opened Bounds
  import opened Disk
  import opened Recovery
  import opened StoreSteps
  import opened Machine
  import opened Lineage
  import opened AwaitLookup
  import opened AwaitWorld

  lemma RunNext(d: Disk, ops: seq<FileOp>, k: nat)
    requires k < |ops|
    ensures Run(d, ops[..k + 1]) == Apply(Run(d, ops[..k]), ops[k])
  {
    hide Run;
    assert ops[..k + 1] == ops[..k] + [ops[k]];
    RunConcat(d, ops[..k], [ops[k]]);
    RunShort(Run(d, ops[..k]), [ops[k]], 1);
  }

  /** Only deletion sets markers, and only of queued entries. */
  lemma {:induction false} NextOnward(start: Disk, ops: seq<FileOp>, k: nat)
    requires k < |ops| && (ops[k].SetTombstone? ==> ops[k].id in start.entries)
    ensures Onward(start, Run(start, ops[..k]), Run(start, ops[..k + 1]))
  {
    hide Run;
    RunNext(start, ops, k);
  }

  /** Reconciling clears a marker only after its record is complete. */
  lemma {:induction false} ReconcileUnfinished(c: Codec, d: Disk, k: nat)
    requires d.journal.Some? && d.journal.value.history.Some? && k <= |ReconcileOps(c, d)|
    ensures forall known :: Unfinished(c, d, known, JournalRecord(c, d), Run(d, ReconcileOps(c, d)[..k]))
  {
    hide Run, ReconcileOps, AppendOps, AppendedBytes, AlreadyRecorded, DropOps, UnmarkOps;
    var j := d.journal.value;
    var a, t := RecordOps(c, d, j), TailOps(d, j);
    TailUnaffected(c, d, j);
    RunPrefix(d, a, t, k);
    RecordPrefix(c, d, Min(k, |a|));
    assert a[..|a|] == a;
    if k > |a| {
      TailStep(Run(d, a), j, k - |a|);
    }
  }

  /** The record that reconciling still has to append. */
  function JournalRecord(c: Codec, d: Disk): Option<HistoryRecord>
    requires d.journal.Some?
  {
    if d.journal.value.history.None? || AlreadyRecorded(c, d, d.journal.value) then None else d.journal.value.history
  }

  lemma {:induction false} RecordPrefix(c: Codec, d: Disk, n: nat)
    requires d.journal.Some? && n <= |RecordOps(c, d, d.journal.value)|
    ensures
      var a := RecordOps(c, d, d.journal.value);
      var d' := Run(d, a[..n]);
      && d' == d.(history := d'.history)
      && Appending(c, d.history, JournalRecord(c, d), d'.history)
      && (n == |a| ==> Appended(c, d.history, JournalRecord(c, d), d'.history))
  {
    hide Run, AppendOps, AppendedBytes, AlreadyRecorded;
    var j := d.journal.value;
    if JournalRecord(c, d).None? {
      RunShort(d, [], 0);
    } else {
      RunAppend(d, AppendedBytes(c, d.history, j.history.value), n);
    }
  }

  /** The record an operation appends, if any. */
  function RecordOf(cfg: Config, s: State, ev: Event): Option<HistoryRecord> {
    if ev.Complete? && s.worker.Posting? then Some(Success(s, ev))
    else if ev.Record? && s.worker.Posting? then Some(Failure(s, ev))
    else if ev.Restart? && s.disk.journal.Some? then JournalRecord(cfg.codec, s.disk)
    else None
  }

  /** The directory an event leaves after `k` of its file operations. */
  ghost function Cut(cfg: Config, s: State, ev: Event, k: nat): Disk
    requires Enabled(cfg, s, ev) && k <= |Ops(cfg, s, ev)|
  {
    Run(s.disk, Ops(cfg, s, ev)[..k])
  }

  /** What every cut of an operation has to satisfy for await resolution. */
  ghost predicate Tolerated(cfg: Config, s: State, ev: Event, d: Disk) {
    Unfinished(cfg.codec, s.disk, s.used, RecordOf(cfg, s, ev), d)
  }

  lemma {:induction false} CompleteUnfinished(cfg: Config, s: State, ev: Event, k: nat)
    requires Inv(cfg, s) && Enabled(cfg, s, ev) && ev.Complete? && k <= |Ops(cfg, s, ev)|
    ensures Tolerated(cfg, s, ev, Cut(cfg, s, ev, k))
  {
    hide Run, ReconcileOps, Admitted, QueueInv, TimeInv, AppendedBytes, Records;
    var c := cfg.codec;
    var j := CompletionJournal(s.disk, s.worker.entry, Success(s, ev));
    var journaled := s.disk.(journal := Some(j));
    var ops := ReconcileOps(c, journaled);
    if k == 0 {
      RunShort(s.disk, [], 0);
      NotStarted(c, s.disk, s.used, RecordOf(cfg, s, ev));
    } else {
      RunPrefixRest(s.disk, [SetJournal(j)], ops, k);
      RunShort(s.disk, [SetJournal(j)], 1);
      ReconcileUnfinished(c, journaled, k - 1);
      assert Unfinished(c, journaled, s.used, JournalRecord(c, journaled), Run(journaled, ops[..k - 1]));
      RecordsFirst(Forward(c), s.disk.history, |s.disk.history|);
      assert JournalRecord(c, journaled) == j.history;
    }
  }

  lemma {:induction false} RestartUnfinished(cfg: Config, s: State, ev: Event, k: nat)
    requires Inv(cfg, s) && Enabled(cfg, s, ev) && ev.Restart? && k <= |Ops(cfg, s, ev)|
    ensures Tolerated(cfg, s, ev, Cut(cfg, s, ev, k))
  {
    hide Run, ReconcileOps, ReclaimOps, Admitted, QueueInv, TimeInv, Uuids, Tolerated, PastDrop, Drawn;
    var c := cfg.codec;
    var a := ReconcileOps(c, s.disk);
    var mid := s.(disk := Run(s.disk, a));
    assert a[..|a|] == a;
    ReconcileKeeps(cfg, s, |a|);
    AdmittedKeyed(cfg.fixed, mid.disk.entries);
    var b := ReclaimOps(Queue(mid.disk.entries), ev.uuid);
    Reconciled(cfg, s, ev, Min(k, |a|));
    if k < |a| {
      RunPrefix(s.disk, a, b, k);
    } else {
      RunPrefixRest(s.disk, a, b, k);
      assert Uuids(ev.uuid, mid.disk.entries) by { FewerEntries(cfg, s, ev.uuid, |a|); }
      DroppedIff(c, s.disk, |a|);
      ReclaimUnfinished(cfg, s, ev, mid.disk, k - |a|);
    }
  }

  lemma {:induction false} ReclaimUnfinished(cfg: Config, s: State, ev: Event, mid: Disk, k: nat)
    requires QueueInv(s) && s.open && ev.Restart? && Tolerated(cfg, s, ev, mid)
    requires Admitted(cfg.fixed, mid.entries) && WellKeyed(mid.entries) && Uuids(ev.uuid, mid.entries)
    requires mid.entries.Keys <= s.disk.entries.Keys && k <= |ReclaimOps(Queue(mid.entries), ev.uuid)|
    ensures Tolerated(cfg, s, ev, Run(mid, ReclaimOps(Queue(mid.entries), ev.uuid)[..k]))
  {
    hide Run, ReclaimOps, Admitted, QueueInv, Uuids, Unfinished, Refusal, StandIn, Queue, RecordOf, Partly;
    QueueStands(mid.entries);
    ReclaimEffect(cfg.fixed, mid, Queue(mid.entries), ev.uuid, k);
    SameLifetimes(cfg.codec, s, RecordOf(cfg, s, ev), mid, Run(mid, ReclaimOps(Queue(mid.entries), ev.uuid)[..k]), ev.uuid);
  }

  lemma {:induction false} Reconciled(cfg: Config, s: State, ev: Event, n: nat)
    requires Inv(cfg, s) && ev.Restart? && n <= |ReconcileOps(cfg.codec, s.disk)|
    ensures Tolerated(cfg, s, ev, Run(s.disk, ReconcileOps(cfg.codec, s.disk)[..n]))
  {
    hide Run, ReconcileOps, Admitted, QueueInv, TimeInv, AppendedBytes, AlreadyRecorded, Unfinished;
    if s.disk.journal.None? {
      NoJournal(cfg.codec, s.disk);
      NotStarted(cfg.codec, s.disk, s.used, None);
    } else {
      JournalFacts(s);
      ReconcileUnfinished(cfg.codec, s.disk, n);
    }
  }

  /** Reclaiming renames no lifetime of an open store. */
  lemma SameLifetimes(c: Codec, s: State, record: Option<HistoryRecord>, mid: Disk, d: Disk, uuid: string -> string)
    requires QueueInv(s) && s.open && Unfinished(c, s.disk, s.used, record, mid)
    requires mid.entries.Keys <= s.disk.entries.Keys
    requires d == mid.(entries := d.entries) && Partly(mid.entries, d.entries, uuid)
    ensures Unfinished(c, s.disk, s.used, record, d)
  {
    hide Lives, Appending, Appended;
    assert AllLive(s.disk.entries);
  }

  lemma RecordUnfinished(cfg: Config, s: State, ev: Event, k: nat)
    requires Enabled(cfg, s, ev) && ev.Record? && k <= |Ops(cfg, s, ev)|
    ensures Tolerated(cfg, s, ev, Cut(cfg, s, ev, k)) && Cut(cfg, s, ev, k).entries == s.disk.entries
  {
    hide Run, AppendOps, AppendedBytes;
    RunAppend(s.disk, AppendedBytes(cfg.codec, s.disk.history, Failure(s, ev)), k);
  }

  lemma RewriteUnfinished(cfg: Config, s: State, ev: Event, k: nat)
    requires Enabled(cfg, s, ev) && k <= |Ops(cfg, s, ev)|
    requires ev.Claim? || ev.Release? || ev.Bump? || ev.Bust?
    ensures Tolerated(cfg, s, ev, Cut(cfg, s, ev, k))
    ensures k < |Ops(cfg, s, ev)| ==> Cut(cfg, s, ev, k).entries == s.disk.entries
  {
    hide Run, Ops, Enabled;
    RewrittenLives(cfg, s, ev, k);
  }

  lemma ClientUnfinished(cfg: Config, s: State, ev: Event, k: nat)
    requires Enabled(cfg, s, ev) && k <= |Ops(cfg, s, ev)| && (ev.Put? || ev.Del?)
    ensures Tolerated(cfg, s, ev, Cut(cfg, s, ev, k))
    ensures k < |Ops(cfg, s, ev)| ==> Cut(cfg, s, ev, k).entries == s.disk.entries
  {
    hide Run, Refusal, NewEntry;
    var ops := Ops(cfg, s, ev);
    assert ev.Put? ==> ops[0].entry.id == ev.id && ops[0].entry.incarnation == ev.incarnation by { NewEntryNames(cfg, s, ev); }
    if |ops| <= 1 {
      RunShort(s.disk, ops, k);
    } else {
      RunPair(s.disk, ops[0], ops[1], k);
      assert ops == [ops[0], ops[1]];
    }
  }

  lemma NewEntryNames(cfg: Config, s: State, ev: Event)
    requires Enabled(cfg, s, ev)
    ensures ev.Put? ==> Ops(cfg, s, ev)[0].entry.id == ev.id && Ops(cfg, s, ev)[0].entry.incarnation == ev.incarnation
  {
    hide Refusal;
  }

  /**
  However a store operation fails in an open store, in any reachable state,
  what it leaves is what await resolution tolerates, also when it fails after
  its last file operation. Only a completion or a recovery can have removed an
  entry before that.
  */
  lemma FailureIsTolerated(cfg: Config, s: State, ev: Event, k: nat)
    requires Reachable(cfg, s) && Enabled(cfg, s, ev) && s.open && !Sudden(ev) && k <= |Ops(cfg, s, ev)|
    ensures Tolerated(cfg, s, ev, Cut(cfg, s, ev, k))
    ensures k < |Ops(cfg, s, ev)| ==> Onward(s.disk, Cut(cfg, s, ev, k), Cut(cfg, s, ev, k + 1))
    ensures k < |Ops(cfg, s, ev)| && !ev.Complete? && !ev.Restart? ==> Cut(cfg, s, ev, k).entries == s.disk.entries
  {
    hide Inv, Reachable, Run, Tolerated, Onward, Ops;
    ReachableInv(cfg, s);
    if ev.Complete? {
      CompleteUnfinished(cfg, s, ev, k);
    } else if ev.Restart? {
      RestartUnfinished(cfg, s, ev, k);
    } else if ev.Record? {
      RecordUnfinished(cfg, s, ev, k);
    } else if ev.Put? || ev.Del? {
      ClientUnfinished(cfg, s, ev, k);
    } else {
      RewriteUnfinished(cfg, s, ev, k);
    }
    if k < |Ops(cfg, s, ev)| {
      MarksOnlyQueued(cfg, s, ev, k);
      NextOnward(s.disk, Ops(cfg, s, ev), k);
    }
  }

  lemma {:induction false} MarksOnlyQueued(cfg: Config, s: State, ev: Event, k: nat)
    requires Enabled(cfg, s, ev) && !Sudden(ev) && !ev.Reopen? && k < |Ops(cfg, s, ev)|
    ensures Ops(cfg, s, ev)[k].SetTombstone? ==> Ops(cfg, s, ev)[k].id in s.disk.entries
  {
    hide Run, ReconcileOps, ReclaimOps, Refusal, AppendOps, AppendedBytes;
    if ev.Complete? {
      var j := CompletionJournal(s.disk, s.worker.entry, Success(s, ev));
      ReconcileMarksNothing(cfg.codec, s.disk.(journal := Some(j)));
    } else if ev.Record? {
      AppendOpsAppend(AppendedBytes(cfg.codec, s.disk.history, Failure(s, ev)));
    } else if ev.Restart? {
      ReconcileMarksNothing(cfg.codec, s.disk);
      ReclaimMarksNothing(QueueOrNone(Run(s.disk, ReconcileOps(cfg.codec, s.disk)).entries), ev.uuid);
    }
  }

  lemma ReconcileMarksNothing(c: Codec, d: Disk)
    ensures forall i :: 0 <= i < |ReconcileOps(c, d)| ==> !ReconcileOps(c, d)[i].SetTombstone?
  {
    hide AppendOps, AppendedBytes, AlreadyRecorded;
    if d.journal.Some? && d.journal.value.history.Some? {
      AppendOpsAppend(AppendedBytes(c, d.history, d.journal.value.history.value));
    }
  }

  lemma {:induction false} ReclaimMarksNothing(es: seq<StoredEntry>, uuid: string -> string)
    ensures forall i :: 0 <= i < |ReclaimOps(es, uuid)| ==> !ReclaimOps(es, uuid)[i].SetTombstone?
    decreases |es|
  {
    if es != [] {
      ReclaimMarksNothing(es[1..], uuid);
    }
  }

  // When a parked wait is stale.

  /** An event that does not advance the published version of a running daemon. */
  predicate Silent(ev: Event) {
    ev.Die? || ev.Record? || (!Sudden(ev) && !ev.ok)
  }

  predicate AllSilent(evs: seq<Event>) {
    forall i :: 0 <= i < |evs| ==> Silent(evs[i])
  }

  /** Reconciling has got past dropping the journaled entry. */
  predicate PastDrop(c: Codec, d: Disk, k: nat) {
    d.journal.Some? && DropOps(d, d.journal.value) != [] && k > |RecordOps(c, d, d.journal.value)| + |UnmarkOps(d, d.journal.value)|
  }

  /** Exactly then the entry is gone. */
  lemma {:induction false} DroppedIff(c: Codec, d: Disk, k: nat)
    requires k <= |ReconcileOps(c, d)|
    ensures Run(d, ReconcileOps(c, d)[..k]).entries
         == if PastDrop(c, d, k) then d.entries - {d.journal.value.id} else d.entries
  {
    hide Run, ReconcileOps, RecordOps, UnmarkOps;
    if d.journal.None? {
      NoJournal(c, d);
    } else {
      var j := d.journal.value;
      var a, u, e, m := RecordOps(c, d, j), UnmarkOps(d, j), DropOps(d, j), [SetLastPost(j.postedAt), ClearJournal];
      TailUnaffected(c, d, j);
      RunPrefix(d, a, TailOps(d, j), k);
      RecordEffect(c, d, j, Min(k, |a|));
      assert a[..|a|] == a;
      if k > |a| {
        TailDrop(Run(d, a), j, k - |a|);
        assert DropOps(Run(d, a), j) == e && UnmarkOps(Run(d, a), j) == u by { SameTail(c, d, j); }
      }
    }
  }

  lemma SameTail(c: Codec, d: Disk, j: Journal)
    ensures
      var mid := Run(d, RecordOps(c, d, j));
      DropOps(mid, j) == DropOps(d, j) && UnmarkOps(mid, j) == UnmarkOps(d, j)
  {
    hide RecordOps, Run;
    var a := RecordOps(c, d, j);
    RecordEffect(c, d, j, |a|);
    assert a[..|a|] == a;
  }

  lemma {:induction false} TailDrop(d: Disk, j: Journal, k: nat)
    requires k <= |TailOps(d, j)|
    ensures Run(d, TailOps(d, j)[..k]).entries == if DropOps(d, j) != [] && k > |UnmarkOps(d, j)| then d.entries - {j.id} else d.entries
  {
    hide Run;
    var u, e, m := UnmarkOps(d, j), DropOps(d, j), [SetLastPost(j.postedAt), ClearJournal];
    RunPrefix(d, u + e, m, k);
    var n := Min(k, |u + e|);
    RunPrefix(d, u, e, n);
    assert (u + e)[..|u + e|] == u + e;
    RunShort(d, u, Min(n, |u|));
    RunShort(Run(d, u), e, Max(0, n - |u|));
    if k > |u + e| {
      RunPair(Run(d, u + e), SetLastPost(j.postedAt), ClearJournal, k - |u + e|);
    }
  }

  /** A completion, or a recovery journaled for this lifetime, that drops it from the queue. */
  ghost predicate Removes(cfg: Config, s: State, ev: Event, id: string, incarnation: string)
    requires Enabled(cfg, s, ev)
  {
    match ev
    case Complete(_, _, _, _, done, _) =>
      && s.worker.entry.id == id && s.worker.entry.incarnation == incarnation
      && done > 0 && PastDrop(cfg.codec, s.disk.(journal := Some(CompletionJournal(s.disk, s.worker.entry, Success(s, ev)))), done - 1)
    case Restart(_, done, _) =>
      && s.disk.journal.Some? && s.disk.journal.value.id == id
      && s.disk.journal.value.history.Some? && s.disk.journal.value.history.value.incarnation == incarnation
      && PastDrop(cfg.codec, s.disk, done)
    case _ => false
  }

  /** Some event of the run removed this lifetime. */
  ghost predicate Removed(cfg: Config, s: State, evs: seq<Event>, id: string, incarnation: string)
    requires IsRun(cfg, s, evs)
    decreases |evs|
  {
    evs != [] && (Removes(cfg, s, evs[0], id, incarnation) || Removed(cfg, Step(cfg, s, evs[0]), evs[1..], id, incarnation))
  }

  predicate Holds(d: Disk, id: string, incarnation: string) {
    id in d.entries && d.entries[id].incarnation == incarnation
  }

  lemma RestartHolds(cfg: Config, s: State, ev: Event, id: string, incarnation: string)
    requires Inv(cfg, s) && Enabled(cfg, s, ev) && ev.Restart? && Holds(s.disk, id, incarnation)
    ensures Holds(Left(cfg, s, ev), id, incarnation) <==> !Removes(cfg, s, ev, id, incarnation)
  {
    hide Run, ReconcileOps, ReclaimOps, Admitted, QueueInv, TimeInv, Uuids, RecordOps, UnmarkOps, DropOps;
    var c := cfg.codec;
    var a := ReconcileOps(c, s.disk);
    var mid := s.(disk := Run(s.disk, a));
    assert a[..|a|] == a;
    ReconcileKeeps(cfg, s, |a|);
    AdmittedKeyed(cfg.fixed, mid.disk.entries);
    var b := ReclaimOps(Queue(mid.disk.entries), ev.uuid);
    assert RecoverOps(c, s.disk, ev.uuid) == a + b;
    DroppedIff(c, s.disk, Min(ev.done, |a|));
    DropIsOwn(cfg, s, ev, id, incarnation);
    if ev.done <= |a| {
      RunPrefix(s.disk, a, b, ev.done);
    } else {
      PastWhole(c, s.disk, ev.done);
      RunPrefixRest(s.disk, a, b, ev.done);
      assert Uuids(ev.uuid, mid.disk.entries) by { FewerEntries(cfg, s, ev.uuid, |a|); }
      ReclaimHolds(cfg, s, mid.disk, ev.uuid, ev.done - |a|, id, incarnation);
    }
  }

  lemma PastWhole(c: Codec, d: Disk, k: nat)
    requires k >= |ReconcileOps(c, d)|
    ensures PastDrop(c, d, k) <==> PastDrop(c, d, |ReconcileOps(c, d)|)
  {
    hide RecordOps, UnmarkOps;
    if d.journal.Some? {
      TailUnaffected(c, d, d.journal.value);
    }
  }

  lemma ReclaimHolds(cfg: Config, s: State, mid: Disk, uuid: string -> string, k: nat, id: string, incarnation: string)
    requires QueueInv(s) && s.open && Holds(s.disk, id, incarnation) && (id in mid.entries ==> mid.entries[id] == s.disk.entries[id])
    requires Admitted(cfg.fixed, mid.entries) && WellKeyed(mid.entries) && Uuids(uuid, mid.entries)
    requires k <= |ReclaimOps(Queue(mid.entries), uuid)|
    ensures Holds(Run(mid, ReclaimOps(Queue(mid.entries), uuid)[..k]), id, incarnation) <==> id in mid.entries
  {
    hide Run, ReclaimOps, Admitted, QueueInv, Uuids, Refusal, StandIn, Queue;
    QueueStands(mid.entries);
    ReclaimEffect(cfg.fixed, mid, Queue(mid.entries), uuid, k);
    LiveEntry(s, id);
  }

  lemma LiveEntry(s: State, id: string)
    requires QueueInv(s) && s.open && id in s.disk.entries
    ensures s.disk.entries[id].incarnation != ""
  {
  }

  /** The entry a recovery drops is the journaled lifetime. */
  lemma DropIsOwn(cfg: Config, s: State, ev: Event, id: string, incarnation: string)
    requires Inv(cfg, s) && Enabled(cfg, s, ev) && ev.Restart? && Holds(s.disk, id, incarnation)
    ensures s.disk.journal.Some? && DropOps(s.disk, s.disk.journal.value) != [] && s.disk.journal.value.id == id ==>
      s.disk.journal.value.history.Some? && s.disk.journal.value.history.value.incarnation == incarnation
  {
    hide Admitted, TimeInv, Lives;
  }

  lemma CompleteHolds(cfg: Config, s: State, ev: Event, id: string, incarnation: string)
    requires Inv(cfg, s) && Enabled(cfg, s, ev) && ev.Complete? && Holds(s.disk, id, incarnation)
    ensures Holds(Left(cfg, s, ev), id, incarnation) <==> !Removes(cfg, s, ev, id, incarnation)
  {
    hide Run, ReconcileOps, Admitted, TimeInv, Lives, RecordOps, UnmarkOps;
    var e := s.worker.entry;
    var j := CompletionJournal(s.disk, e, Success(s, ev));
    var journaled := s.disk.(journal := Some(j));
    if ev.done == 0 {
      RunShort(s.disk, [], 0);
    } else {
      RunPrefixRest(s.disk, [SetJournal(j)], ReconcileOps(cfg.codec, journaled), ev.done);
      RunShort(s.disk, [SetJournal(j)], 1);
      DroppedIff(cfg.codec, journaled, ev.done - 1);
      assert DropOps(journaled, j) != [] ==> e.id in s.disk.entries && s.disk.entries[e.id].incarnation == e.incarnation;
    }
  }

  lemma OtherHolds(cfg: Config, s: State, ev: Event, id: string, incarnation: string)
    requires Inv(cfg, s) && Enabled(cfg, s, ev) && !Sudden(ev) && !ev.Reopen? && !ev.Restart? && !ev.Complete?
    requires Silent(ev) && Holds(s.disk, id, incarnation)
    ensures Holds(Left(cfg, s, ev), id, incarnation) && !Removes(cfg, s, ev, id, incarnation)
  {
    hide Run, Refusal, Admitted, QueueInv, TimeInv, AppendOps, AppendedBytes;
    if ev.Record? {
      RunAppend(s.disk, AppendedBytes(cfg.codec, s.disk.history, Failure(s, ev)), ev.done);
    } else {
      var ops := Ops(cfg, s, ev);
      if |ops| <= 1 {
        RunShort(s.disk, ops, ev.done);
      } else {
        RunPair(s.disk, ops[0], ops[1], ev.done);
        assert ops == [ops[0], ops[1]];
      }
      if ops != [] && ev.Claim? {
        assert Queue(s.disk.entries)[0] in Queue(s.disk.entries);
      }
    }
  }

  /** A lifetime that is gone is not queued again. */
  lemma GoneStaysGone(cfg: Config, s: State, ev: Event, id: string, incarnation: string)
    requires Inv(cfg, s) && Enabled(cfg, s, ev) && s.open && !ev.Crash?
    requires incarnation in s.used && incarnation != "" && !Holds(s.disk, id, incarnation)
    ensures !Holds(Step(cfg, s, ev).disk, id, incarnation) && incarnation in Step(cfg, s, ev).used
  {
    hide Inv, Run, Refusal, Ops;
    if ev.Restart? {
      RestartLives(cfg, s, ev);
    } else if ev.Complete? {
      CompleteLives(cfg, s, ev);
    } else if ev.Record? {
      RecordLives(cfg, s, ev);
    } else if ev.Put? || ev.Claim? {
      ClientLives(cfg, s, ev);
    } else if !ev.Die? {
      ShortLives(cfg, s, ev);
    }
  }

  lemma {:induction false} StepHolds(cfg: Config, s: State, ev: Event, id: string, incarnation: string)
    requires Inv(cfg, s) && Enabled(cfg, s, ev) && s.open && Silent(ev) && incarnation in s.used && incarnation != ""
    ensures Holds(Step(cfg, s, ev).disk, id, incarnation) <==> Holds(s.disk, id, incarnation) && !Removes(cfg, s, ev, id, incarnation)
    ensures incarnation in Step(cfg, s, ev).used && Step(cfg, s, ev).open
  {
    hide Inv, Run, Ops, Removes, Holds, Left;
    if !Holds(s.disk, id, incarnation) {
      GoneStaysGone(cfg, s, ev, id, incarnation);
    } else if ev.Restart? {
      RestartHolds(cfg, s, ev, id, incarnation);
    } else if ev.Complete? {
      CompleteHolds(cfg, s, ev, id, incarnation);
    } else if !ev.Die? {
      OtherHolds(cfg, s, ev, id, incarnation);
    } else {
      DieRemovesNothing(cfg, s, ev, id, incarnation);
    }
  }

  lemma DieRemovesNothing(cfg: Config, s: State, ev: Event, id: string, incarnation: string)
    requires Enabled(cfg, s, ev) && ev.Die?
    ensures !Removes(cfg, s, ev, id, incarnation) && Step(cfg, s, ev).disk == s.disk
  {
  }

  lemma {:induction false} RunHolds(cfg: Config, s: State, evs: seq<Event>, id: string, incarnation: string)
    requires Inv(cfg, s) && IsRun(cfg, s, evs) && s.open && AllSilent(evs)
    requires Holds(s.disk, id, incarnation) && incarnation in s.used && incarnation != ""
    ensures Holds(Reached(cfg, s, evs).disk, id, incarnation) <==> !Removed(cfg, s, evs, id, incarnation)
    decreases |evs|
  {
    hide Inv, Enabled, Step, Holds, Removes;
    if evs != [] {
      StepKeeps(cfg, s, evs[0]);
      StepHolds(cfg, s, evs[0], id, incarnation);
      var s' := Step(cfg, s, evs[0]);
      if Holds(s'.disk, id, incarnation) {
        RunHolds(cfg, s', evs[1..], id, incarnation);
      } else {
        RunGone(cfg, s', evs[1..], id, incarnation);
      }
    }
  }

  lemma {:induction false} RunGone(cfg: Config, s: State, evs: seq<Event>, id: string, incarnation: string)
    requires Inv(cfg, s) && IsRun(cfg, s, evs) && s.open && AllSilent(evs)
    requires !Holds(s.disk, id, incarnation) && incarnation in s.used && incarnation != ""
    ensures !Holds(Reached(cfg, s, evs).disk, id, incarnation)
    decreases |evs|
  {
    hide Inv, Enabled, Step, Holds, Removes;
    if evs != [] {
      StepKeeps(cfg, s, evs[0]);
      StepHolds(cfg, s, evs[0], id, incarnation);
      RunGone(cfg, Step(cfg, s, evs[0]), evs[1..], id, incarnation);
    }
  }

  /**
  A handler that parked on a pending answer, and has seen the published version
  since, holds a stale answer if and only if one of the operations that failed
  meanwhile removed its lifetime: a completion of it, or a recovery journaled
  for it, that failed at or after dropping the entry.
  */
  lemma {:induction false} StaleIffRemoved(cfg: Config, s: State, evs: seq<Event>, id: string)
    requires Reachable(cfg, s) && s.open && id in s.disk.entries && IsRun(cfg, s, evs) && AllSilent(evs)
    ensures
      var incarnation := s.disk.entries[id].incarnation;
      var cursor := AwaitCursor(|s.disk.history|, incarnation);
      && Lookup(cfg.codec, s.disk, id, None) == Pending(cursor)
      && (Lookup(cfg.codec, Reached(cfg, s, evs).disk, id, Some(cursor)) != Pending(cursor)
          <==> Removed(cfg, s, evs, id, incarnation))
  {
    hide Inv, Reachable, IsRun, Reached, Removed, LatestIn;
    ReachableInv(cfg, s);
    assert s.disk.entries[id].incarnation in s.used && s.disk.entries[id].incarnation != "" by { UsedEntry(cfg, s, id); }
    RunHolds(cfg, s, evs, id, s.disk.entries[id].incarnation);
  }

  lemma UsedEntry(cfg: Config, s: State, id: string)
    requires Inv(cfg, s) && s.open && id in s.disk.entries
    ensures s.disk.entries[id].incarnation in s.used && s.disk.entries[id].incarnation != ""
  {
    hide Admitted, TimeInv;
  }

  /**
  Such a failure, from the journal and the recovery's own steps: with the
  completion of a queued entry journaled, a recovery that fails right after
  dropping the entry changes no version and leaves the handler stale.
  */
  lemma {:induction false} StaleAfterFailedRecovery(cfg: Config, s: State, uuid: string -> string, id: string)
    requires Reachable(cfg, s) && s.open && NewUuids(s, uuid) && s.disk.journal.Some?
    requires id in s.disk.entries && s.disk.entries[id].claimToken.Some?
    ensures
      var j := s.disk.journal.value;
      var ev := Restart(uuid, |RecordOps(cfg.codec, s.disk, j)| + |UnmarkOps(s.disk, j)| + 1, false);
      var cursor := AwaitCursor(|s.disk.history|, s.disk.entries[id].incarnation);
      && Enabled(cfg, s, ev) && Silent(ev)
      && Lookup(cfg.codec, s.disk, id, None) == Pending(cursor)
      && Lookup(cfg.codec, Step(cfg, s, ev).disk, id, Some(cursor)) != Pending(cursor)
  {
    hide Inv, Reachable, Run, RecordOps, UnmarkOps, ReclaimOps, Uuids, LatestIn, ReconcileOps;
    ReachableInv(cfg, s);
    var j := s.disk.journal.value;
    ClaimedIsJournaled(cfg, s, id);
    TailUnaffected(cfg.codec, s.disk, j);
    var ev := Restart(uuid, |RecordOps(cfg.codec, s.disk, j)| + |UnmarkOps(s.disk, j)| + 1, false);
    UsedEntry(cfg, s, id);
    StepHolds(cfg, s, ev, id, s.disk.entries[id].incarnation);
  }

  lemma ClaimedIsJournaled(cfg: Config, s: State, id: string)
    requires Inv(cfg, s) && s.disk.journal.Some? && id in s.disk.entries && s.disk.entries[id].claimToken.Some?
    ensures
      var j := s.disk.journal.value;
      && j.id == id && DropOps(s.disk, j) != [] && s.worker.Down? && WellKeyed(s.disk.entries)
      && j.history.Some? && j.history.value.incarnation == s.disk.entries[id].incarnation
  {
    hide Admitted, TimeInv;
    AdmittedKeyed(cfg.fixed, s.disk.entries);
  }

  // What is new is not removed unpublished.

  /** Neither the journal nor the worker names a lifetime outside `used`. */
  ghost predicate OnlyOld(s: State, used: set<string>) {
    s.completed <= used && (s.worker.Posting? ==> s.worker.entry.incarnation in used)
  }

  lemma OldAtFirst(cfg: Config, s: State)
    requires Inv(cfg, s)
    ensures OnlyOld(s, s.used)
  {
    hide Admitted, TimeInv;
  }

  lemma OldKept(cfg: Config, s: State, ev: Event, used: set<string>)
    requires Enabled(cfg, s, ev) && s.open && Silent(ev) && OnlyOld(s, used)
    ensures OnlyOld(Step(cfg, s, ev), used) && Step(cfg, s, ev).open
  {
    hide Ops, Run;
  }

  lemma NothingNewDropped(cfg: Config, s: State, ev: Event, used: set<string>, id: string, incarnation: string)
    requires Inv(cfg, s) && Enabled(cfg, s, ev) && OnlyOld(s, used) && incarnation !in used
    ensures !Removes(cfg, s, ev, id, incarnation)
  {
    hide Admitted, TimeInv, Ops, Run, PastDrop;
  }

  lemma {:induction false} SilentRun(cfg: Config, s: State, evs: seq<Event>, used: set<string>)
    requires Inv(cfg, s) && s.open && OnlyOld(s, used) && IsRun(cfg, s, evs) && AllSilent(evs)
    ensures Inv(cfg, Reached(cfg, s, evs)) && OnlyOld(Reached(cfg, s, evs), used) && Reached(cfg, s, evs).open
    decreases |evs|
  {
    hide Inv, Enabled, Step, OnlyOld;
    if evs != [] {
      StepKeeps(cfg, s, evs[0]);
      OldKept(cfg, s, evs[0], used);
      SilentRun(cfg, Step(cfg, s, evs[0]), evs[1..], used);
    }
  }

  /** Short of its end an operation has queued no lifetime. */
  lemma CutLives(cfg: Config, s: State, ev: Event)
    requires Inv(cfg, s) && Enabled(cfg, s, ev) && s.open && !Sudden(ev) && ev.done < |Ops(cfg, s, ev)|
    ensures SameLives(s.disk.entries, Left(cfg, s, ev).entries)
  {
    hide Inv, Run, Refusal, Ops;
    if ev.Restart? {
      RestartLives(cfg, s, ev);
    } else if ev.Complete? {
      CompleteLives(cfg, s, ev);
    } else if ev.Record? {
      RecordLives(cfg, s, ev);
    } else if ev.Put? || ev.Claim? {
      NothingDone(cfg, s, ev);
    } else {
      ShortLives(cfg, s, ev);
    }
  }

  lemma NothingDone(cfg: Config, s: State, ev: Event)
    requires Enabled(cfg, s, ev) && (ev.Put? || ev.Claim?) && ev.done < |Ops(cfg, s, ev)|
    ensures Left(cfg, s, ev) == s.disk
  {
    hide Refusal;
  }

  /** The same operation, failing after `k` of its file operations. */
  function FailingAt(ev: Event, k: nat): Event
    requires !Sudden(ev)
  {
    ev.(done := k, ok := false)
  }

  lemma FailsEarlier(cfg: Config, s: State, ev: Event, k: nat)
    requires Enabled(cfg, s, ev) && Silent(ev) && !Sudden(ev) && k <= ev.done
    ensures Enabled(cfg, s, FailingAt(ev, k)) && Silent(FailingAt(ev, k))
    ensures Ops(cfg, s, FailingAt(ev, k)) == Ops(cfg, s, ev) && Left(cfg, s, FailingAt(ev, k)) == Cut(cfg, s, ev, k)
  {
    hide Run, OpenOps, RecoverOps, ClaimOps, CompleteOps, ReleaseOps, BumpOps, BustOps, Refusal, NewUuids, AppendOps;
  }

  /** No file operation of an unpublished operation removes a lifetime that is new since `used`. */
  lemma {:induction false} CutKeepsNew(cfg: Config, s: State, ev: Event, k: nat, used: set<string>)
    requires Inv(cfg, s) && Enabled(cfg, s, ev) && s.open && Silent(ev) && !Sudden(ev) && OnlyOld(s, used) && k < ev.done
    ensures KeepsNew(used, Cut(cfg, s, ev, k), Cut(cfg, s, ev, k + 1))
  {
    hide Inv, Enabled, Ops, Run, Cut, Left, OnlyOld, Removes, Step;
    FailsEarlier(cfg, s, ev, k);
    FailsEarlier(cfg, s, ev, k + 1);
    var before, after := FailingAt(ev, k), FailingAt(ev, k + 1);
    FullLength(cfg, s, ev);
    CutLives(cfg, s, before);
    var a := Cut(cfg, s, ev, k);
    forall id | id in a.entries && a.entries[id].incarnation !in used ensures id in Cut(cfg, s, ev, k + 1).entries {
      var incarnation := a.entries[id].incarnation;
      UsedEntry(cfg, s, id);
      StepHolds(cfg, s, after, id, incarnation);
      NothingNewDropped(cfg, s, after, used, id, incarnation);
      LeftByStep(cfg, s, after);
    }
  }

  lemma FullLength(cfg: Config, s: State, ev: Event)
    requires Enabled(cfg, s, ev) && !Sudden(ev)
    ensures WellKeyed(s.disk.entries) && ev.done <= |Ops(cfg, s, ev)|
  {
    hide Ops;
  }

  lemma LeftByStep(cfg: Config, s: State, ev: Event)
    requires Enabled(cfg, s, ev)
    ensures Step(cfg, s, ev).disk == Left(cfg, s, ev)
  {
    hide Ops, Run;
  }

  /**
  From any reachable state of an open store on, and over any run of events that
  publish nothing, no further unpublished operation removes, by any of its file
  operations, a lifetime that was queued since. A completion needs a claim, and
  a claim that leads to one is published.
  */
  lemma {:induction false} NewIsKept(cfg: Config, s: State, evs: seq<Event>, ev: Event, k: nat)
    requires Reachable(cfg, s) && s.open && IsRun(cfg, s, evs) && AllSilent(evs)
    requires Enabled(cfg, Reached(cfg, s, evs), ev) && Silent(ev) && !Sudden(ev) && k < ev.done
    ensures k + 1 <= |Ops(cfg, Reached(cfg, s, evs), ev)|
    ensures KeepsNew(s.used, Cut(cfg, Reached(cfg, s, evs), ev, k), Cut(cfg, Reached(cfg, s, evs), ev, k + 1))
  {
    hide Inv, Reachable, Enabled, Ops, Cut, IsRun, Reached, OnlyOld, KeepsNew;
    ReachableInv(cfg, s);
    OldAtFirst(cfg, s);
    SilentRun(cfg, s, evs, s.used);
    FullLength(cfg, Reached(cfg, s, evs), ev);
    CutKeepsNew(cfg, Reached(cfg, s, evs), ev, k, s.used);
  }

  /** The shared queue while such an operation runs, as waiters see it. */
  ghost function During(cfg: Config, s: State, ev: Event, k: nat, mutations: nat, settled: set<string>): Shared
    requires Enabled(cfg, s, ev) && !Sudden(ev) && k <= |Ops(cfg, s, ev)|
  {
    Shared(Cut(cfg, s, ev, k), mutations, Unversioned(s.disk, s.used, RecordOf(cfg, s, ev)), Step(cfg, s, ev).used, settled)
  }

  /** Each file operation of a failing operation is a step that the world of waiters allows. */
  lemma {:induction false} FailingStepIsLegal(cfg: Config, s: State, evs: seq<Event>, ev: Event, k: nat, mutations: nat)
    requires Reachable(cfg, s) && s.open && IsRun(cfg, s, evs) && AllSilent(evs)
    requires Enabled(cfg, Reached(cfg, s, evs), ev) && Silent(ev) && !Sudden(ev) && k < ev.done
    ensures
      var s' := Reached(cfg, s, evs);
      && k + 1 <= |Ops(cfg, s', ev)|
      && Next(cfg.codec, During(cfg, s', ev, k, mutations, s.used), During(cfg, s', ev, k + 1, mutations, s.used))
  {
    hide Inv, Reachable, Enabled, Ops, Cut, IsRun, Reached, Step, Unfinished, Onward, KeepsNew;
    var s' := Reached(cfg, s, evs);
    NewIsKept(cfg, s, evs, ev, k);
    ReachableRun(cfg, s, evs);
    assert s'.open by { OpenThroughout(cfg, s, evs); }
    FailureIsTolerated(cfg, s', ev, k);
    FailureIsTolerated(cfg, s', ev, k + 1);
    CutIsKnown(cfg, s', ev, k + 1);
  }

  lemma OpenThroughout(cfg: Config, s: State, evs: seq<Event>)
    requires Reachable(cfg, s) && s.open && IsRun(cfg, s, evs) && AllSilent(evs)
    ensures Reached(cfg, s, evs).open
  {
    hide Inv, Reachable, IsRun, Reached, OnlyOld;
    ReachableInv(cfg, s);
    OldAtFirst(cfg, s);
    SilentRun(cfg, s, evs, s.used);
  }

  lemma CutIsKnown(cfg: Config, s: State, ev: Event, k: nat)
    requires Reachable(cfg, s) && Enabled(cfg, s, ev) && s.open && Silent(ev) && !Sudden(ev) && k <= ev.done
    ensures k <= |Ops(cfg, s, ev)|
    ensures
      var d := Cut(cfg, s, ev, k);
      forall id :: id in d.entries ==> d.entries[id].incarnation in Step(cfg, s, ev).used
  {
    hide Reachable, Admitted, TimeInv, Ops, Run, Cut, Enabled;
    FullLength(cfg, s, ev);
    FailsEarlier(cfg, s, ev, k);
    ReachableInv(cfg, s);
    var failing := FailingAt(ev, k);
    StepKeeps(cfg, s, failing);
    LeftByStep(cfg, s, failing);
    OldAtFirst(cfg, s);
    OldKept(cfg, s, failing, s.used);
    assert Step(cfg, s, failing).used == Step(cfg, s, ev).used;
  }
}
