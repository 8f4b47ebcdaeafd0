/**
The cached estimate over the runs of the daemon: which operations can leave a
cached projection wrong, after which of their file operations, and that all
others keep it the one a fresh listing gives.
*/
module CacheRuns {
  import opened Base
  import opened HistoryLog
  import opened ReverseScan
  import opened QueueOrder
  import opened Scheduling
  import opened Bounds
  import opened Disk
  import opened Recovery
  import opened StoreSteps
  import opened Machine
  import opened AwaitLookup
  import opened AwaitCache
  import opened AwaitFailures
  import opened Projection

  /** Reconciling has got past writing the last post. */
  predicate PastLastPost(c: Codec, d: Disk, k: nat) {
    && d.journal.Some?
    && var j := d.journal.value;
       k > |RecordOps(c, d, j)| + |UnmarkOps(d, j)| + |DropOps(d, j)|
  }

  lemma {:induction false} LastPostIff(c: Codec, d: Disk, k: nat)
    requires k <= |ReconcileOps(c, d)|
    ensures
      var d' := Run(d, ReconcileOps(c, d)[..k]);
      && d'.lastAttempt == d.lastAttempt
      && d'.lastPost == if PastLastPost(c, d, k) then Some(d.journal.value.postedAt) else d.lastPost
  {
    hide Run, ReconcileOps, RecordOps, UnmarkOps, DropOps;
    if d.journal.None? {
      NoJournal(c, d);
    } else {
      var j := d.journal.value;
      var a := RecordOps(c, d, j);
      TailUnaffected(c, d, j);
      RunPrefix(d, a, TailOps(d, j), k);
      RecordEffect(c, d, j, Min(k, |a|));
      assert a[..|a|] == a;
      if k > |a| {
        TailLastPost(Run(d, a), j, k - |a|);
        SameTail(c, d, j);
      }
    }
  }

  lemma {:induction false} TailLastPost(d: Disk, j: Journal, k: nat)
    requires k <= |TailOps(d, j)|
    ensures
      var d' := Run(d, TailOps(d, j)[..k]);
      && d'.lastAttempt == d.lastAttempt
      && d'.lastPost == if k > |UnmarkOps(d, j)| + |DropOps(d, j)| then Some(j.postedAt) else d.lastPost
  {
    hide Run, UnmarkOps, DropOps;
    var head, last := UnmarkOps(d, j) + DropOps(d, j), [SetLastPost(j.postedAt), ClearJournal];
    RunPrefix(d, head, last, k);
    TailHead(d, j, Min(k, |head|));
    assert head[..|head|] == head;
    if k > |head| {
      RunPair(Run(d, head), SetLastPost(j.postedAt), ClearJournal, k - |head|);
    }
  }

  /** A reconciliation cut after `k` file operations moves no estimate of this second. */
  ghost predicate HarmlessReconcile(c: Codec, d: Disk, k: nat, cooldown: U64, now: U64)
    requires WellKeyed(d.entries)
  {
    && !PastDrop(c, d, k)
    && (PastLastPost(c, d, k) ==>
      HeadUnmoved(PendingOf(d), PendingOf(d).(lastPost := Some(d.journal.value.postedAt)), cooldown, now))
  }

  /**
  An operation cut after `k` of its file operations moves no estimate of this
  second. Claims and failure records never do. A put has queued its entry, and a
  deletion removed it, with the last operation. A release moves the anchor with
  its first operation, and a completion or recovery with the last post, which
  matters exactly if that moves the head of the queue. A reordering matters
  exactly if it displaces an entry from the time it was projected for.
  */
  ghost predicate Harmless(cfg: Config, s: State, ev: Event, k: nat, now: U64)
    requires Enabled(cfg, s, ev) && k <= |Ops(cfg, s, ev)|
  {
    var d := s.disk;
    if ev.Put? then k == 0
    else if ev.Del? then k < 2
    else if ev.Bump? || ev.Bust? then
      k == 0 || (var m := d.entries[ev.id := Ops(cfg, s, ev)[0].entry];
                 WellKeyed(m) && Undisplaced(PendingOf(d), PendingOf(d.(entries := m)), cfg.cooldown, now))
    else if ev.Release? then
      k == 0 || HeadUnmoved(PendingOf(d), PendingOf(d).(lastAttempt := Some(Ops(cfg, s, ev)[0].at)), cfg.cooldown, now)
    else if ev.Complete? then
      var j := CompletionJournal(d, s.worker.entry, Success(s, ev));
      k == 0 || HarmlessReconcile(cfg.codec, d.(journal := Some(j)), k - 1, cfg.cooldown, now)
    else if ev.Restart? then HarmlessReconcile(cfg.codec, d, k, cfg.cooldown, now)
    else true
  }

  /** What a reconciliation cut after `k` file operations leaves of the projected queue. */
  ghost predicate Reconciles(c: Codec, d: Disk, k: nat, d': Disk)
    requires WellKeyed(d.entries)
  {
    && WellKeyed(d'.entries)
    && (PastDrop(c, d, k) ==> d'.entries.Keys == d.entries.Keys - {d.journal.value.id})
    && (!PastDrop(c, d, k) ==> d'.entries.Keys == d.entries.Keys && SameLine(Queue(d.entries), Queue(d'.entries)))
    && d'.lastAttempt == d.lastAttempt
    && d'.lastPost == if PastLastPost(c, d, k) then Some(d.journal.value.postedAt) else d.lastPost
  }

  lemma ReconcileExactIff(c: Codec, d: Disk, k: nat, d': Disk, cooldown: U64, cached: AwaitSchedule)
    requires WellKeyed(d.entries) && Exact(cached, PendingOf(d), cooldown) && Reconciles(c, d, k, d')
    ensures Exact(cached, PendingOf(d'), cooldown) <==> HarmlessReconcile(c, d, k, cooldown, cached.builtAt)
  {
    hide Exact, Queue, PastLastPost, RecordOps, UnmarkOps, PostAt;
    if PastDrop(c, d, k) {
      assert d.journal.value.id in d.entries;
      OtherKeysInexact(cached, PendingOf(d), PendingOf(d'), cooldown);
    } else {
      SameLineExactIff(cached, PendingOf(d), PendingOf(d'), cooldown);
    }
  }

  lemma ReconcileLine(cfg: Config, s: State, k: nat)
    requires Inv(cfg, s) && s.worker.Down? && k <= |ReconcileOps(cfg.codec, s.disk)|
    ensures WellKeyed(s.disk.entries)
    ensures Reconciles(cfg.codec, s.disk, k, Run(s.disk, ReconcileOps(cfg.codec, s.disk)[..k]))
  {
    hide Run, ReconcileOps, Admitted, QueueInv, TimeInv, PastDrop, PastLastPost, SameLine, Queue;
    var d' := Run(s.disk, ReconcileOps(cfg.codec, s.disk)[..k]);
    ReconcileKeeps(cfg, s, k);
    AdmittedKeyed(cfg.fixed, s.disk.entries);
    AdmittedKeyed(cfg.fixed, d'.entries);
    DroppedIff(cfg.codec, s.disk, k);
    LastPostIff(cfg.codec, s.disk, k);
    SameSortSameLine(s.disk.entries, s.disk.entries);
  }

  lemma {:induction false} CompleteExactIff(cfg: Config, s: State, ev: Event, k: nat, cached: AwaitSchedule)
    requires Inv(cfg, s) && Enabled(cfg, s, ev) && ev.Complete? && k <= |Ops(cfg, s, ev)|
    requires Exact(cached, PendingOf(s.disk), cfg.cooldown)
    ensures WellKeyed(Cut(cfg, s, ev, k).entries)
    ensures Exact(cached, PendingOf(Cut(cfg, s, ev, k)), cfg.cooldown) <==> Harmless(cfg, s, ev, k, cached.builtAt)
  {
    hide Exact, Run, ReconcileOps, Queue, Inv, HarmlessReconcile, RecordOps, UnmarkOps;
    var j := CompletionJournal(s.disk, s.worker.entry, Success(s, ev));
    var journaled := s.disk.(journal := Some(j));
    if k == 0 {
      RunShort(s.disk, [], 0);
    } else {
      RunPrefixRest(s.disk, [SetJournal(j)], ReconcileOps(cfg.codec, journaled), k);
      RunShort(s.disk, [SetJournal(j)], 1);
      DroppedIff(cfg.codec, journaled, k - 1);
      LastPostIff(cfg.codec, journaled, k - 1);
      SameSortSameLine(s.disk.entries, s.disk.entries);
      ReconcileExactIff(cfg.codec, journaled, k - 1, Cut(cfg, s, ev, k), cfg.cooldown, cached);
    }
  }

  /** What a recovery cut anywhere leaves of the queue. */
  lemma {:induction false} RestartLine(cfg: Config, s: State, ev: Event, k: nat)
    requires Inv(cfg, s) && Enabled(cfg, s, ev) && ev.Restart? && k <= |Ops(cfg, s, ev)|
    ensures Reconciles(cfg.codec, s.disk, k, Cut(cfg, s, ev, k))
  {
    hide Run, ReconcileOps, ReclaimOps, Inv, Enabled, Ops, NewUuids, PastDrop, PastLastPost, SameLine, Queue;
    var c := cfg.codec;
    var a := ReconcileOps(c, s.disk);
    var mid := Run(s.disk, a);
    assert a[..|a|] == a;
    RestartOps(cfg, s, ev);
    ReconcileLine(cfg, s, |a|);
    var b := ReclaimOps(Queue(mid.entries), ev.uuid);
    if k <= |a| {
      RunPrefix(s.disk, a, b, k);
      ReconcileLine(cfg, s, k);
    } else {
      RunPrefixRest(s.disk, a, b, k);
      PastWhole(c, s.disk, k);
      PastWholeLastPost(c, s.disk, k);
      ReclaimLine(cfg, s, ev.uuid, k - |a|);
      SameLineTransitive(Queue(s.disk.entries), Queue(mid.entries), Queue(Run(mid, b[..k - |a|]).entries));
    }
  }

  lemma RestartOps(cfg: Config, s: State, ev: Event)
    requires Inv(cfg, s) && Enabled(cfg, s, ev) && ev.Restart?
    ensures
      var a := ReconcileOps(cfg.codec, s.disk);
      var mid := Run(s.disk, a);
      && s.worker.Down? && NewUuids(s, ev.uuid) && WellKeyed(mid.entries)
      && Ops(cfg, s, ev) == a + ReclaimOps(Queue(mid.entries), ev.uuid)
  {
    hide Run, ReconcileOps, ReclaimOps, Inv, NewUuids, Queue;
    var a := ReconcileOps(cfg.codec, s.disk);
    assert a[..|a|] == a;
    ReconcileLine(cfg, s, |a|);
  }

  lemma SameLineTransitive(a: seq<StoredEntry>, b: seq<StoredEntry>, c: seq<StoredEntry>)
    ensures SameLine(a, b) && SameLine(b, c) ==> SameLine(a, c)
  {
  }

  lemma PastWholeLastPost(c: Codec, d: Disk, k: nat)
    requires k >= |ReconcileOps(c, d)|
    ensures PastLastPost(c, d, k) <==> PastLastPost(c, d, |ReconcileOps(c, d)|)
  {
    hide RecordOps, UnmarkOps, DropOps;
    if d.journal.Some? {
      TailUnaffected(c, d, d.journal.value);
    }
  }

  /** Reclaiming changes neither the sort key nor what is projected. */
  lemma {:induction false} ReclaimLine(cfg: Config, s: State, uuid: string -> string, k: nat)
    requires Inv(cfg, s) && s.worker.Down? && NewUuids(s, uuid)
    requires WellKeyed(Run(s.disk, ReconcileOps(cfg.codec, s.disk)).entries)
    requires k <= |ReclaimOps(Queue(Run(s.disk, ReconcileOps(cfg.codec, s.disk)).entries), uuid)|
    ensures
      var mid := Run(s.disk, ReconcileOps(cfg.codec, s.disk));
      var d := Run(mid, ReclaimOps(Queue(mid.entries), uuid)[..k]);
      && d == mid.(entries := d.entries) && d.entries.Keys == mid.entries.Keys
      && WellKeyed(d.entries) && SameLine(Queue(mid.entries), Queue(d.entries))
  {
    hide Run, ReconcileOps, ReclaimOps, Admitted, QueueInv, TimeInv, Uuids, Refusal, StandIn, Queue, SameLine;
    var a := ReconcileOps(cfg.codec, s.disk);
    var mid := Run(s.disk, a);
    assert a[..|a|] == a;
    ReconcileKeeps(cfg, s, |a|);
    FewerEntries(cfg, s, uuid, |a|);
    QueueStands(mid.entries);
    ReclaimEffect(cfg.fixed, mid, Queue(mid.entries), uuid, k);
    var d := Run(mid, ReclaimOps(Queue(mid.entries), uuid)[..k]);
    AdmittedKeyed(cfg.fixed, d.entries);
    SameSortSameLine(mid.entries, d.entries);
  }

  /** Claims and releases: one entry's claim, and perhaps the anchor. */
  lemma ClaimCut(cfg: Config, s: State, ev: Event, k: nat)
    requires Enabled(cfg, s, ev) && (ev.Claim? || ev.Release?) && k <= |Ops(cfg, s, ev)|
    ensures
      var d, d' := s.disk, Cut(cfg, s, ev, k);
      && d'.entries.Keys == d.entries.Keys && d'.lastPost == d.lastPost
      && (forall id :: id in d.entries ==> d'.entries[id] == d.entries[id].(claimToken := d'.entries[id].claimToken))
      && (ev.Release? && k > 0 ==> Ops(cfg, s, ev)[0].SetLastAttempt?)
      && d'.lastAttempt == if ev.Claim? || k == 0 then d.lastAttempt else Some(Ops(cfg, s, ev)[0].at)
  {
    hide Run;
    var d, ops := s.disk, Ops(cfg, s, ev);
    if |ops| <= 1 {
      RunShort(d, ops, k);
    } else {
      RunPair(d, ops[0], ops[1], k);
      assert ops == [ops[0], ops[1]];
    }
    if ops != [] && ev.Claim? {
      assert Queue(d.entries)[0] in Queue(d.entries);
    }
  }

  lemma {:induction false} ClaimExactIff(cfg: Config, s: State, ev: Event, k: nat, cached: AwaitSchedule)
    requires Enabled(cfg, s, ev) && (ev.Claim? || ev.Release?) && k <= |Ops(cfg, s, ev)|
    requires Exact(cached, PendingOf(s.disk), cfg.cooldown)
    ensures WellKeyed(Cut(cfg, s, ev, k).entries)
    ensures Exact(cached, PendingOf(Cut(cfg, s, ev, k)), cfg.cooldown) <==> Harmless(cfg, s, ev, k, cached.builtAt)
  {
    hide Exact, Cut, Queue, Ops, PostAt, SameLine;
    var d, d' := s.disk, Cut(cfg, s, ev, k);
    ClaimCut(cfg, s, ev, k);
    SameSortSameLine(d.entries, d'.entries);
    SameLineExactIff(cached, PendingOf(d), PendingOf(d'), cfg.cooldown);
  }

  /** Bumps and busts: one entry's order key. */
  lemma ReorderCut(cfg: Config, s: State, ev: Event, k: nat)
    requires Enabled(cfg, s, ev) && (ev.Bump? || ev.Bust?) && k <= |Ops(cfg, s, ev)|
    ensures k == 0 ==> Cut(cfg, s, ev, k) == s.disk
    ensures k > 0 ==>
      var d, d' := s.disk, Cut(cfg, s, ev, k);
      && Ops(cfg, s, ev)[0].PutEntry? && d' == d.(entries := d.entries[ev.id := Ops(cfg, s, ev)[0].entry])
      && WellKeyed(d'.entries) && Reordered(PendingOf(d), PendingOf(d'))
  {
    hide Run, Queue;
    RunShort(s.disk, Ops(cfg, s, ev), k);
  }

  lemma {:induction false} ReorderCutExactIff(cfg: Config, s: State, ev: Event, k: nat, cached: AwaitSchedule)
    requires Enabled(cfg, s, ev) && (ev.Bump? || ev.Bust?) && k <= |Ops(cfg, s, ev)|
    requires Exact(cached, PendingOf(s.disk), cfg.cooldown)
    ensures WellKeyed(Cut(cfg, s, ev, k).entries)
    ensures Exact(cached, PendingOf(Cut(cfg, s, ev, k)), cfg.cooldown) <==> Harmless(cfg, s, ev, k, cached.builtAt)
  {
    hide Exact, Cut, Ops, Queue, Undisplaced, Reordered;
    ReorderCut(cfg, s, ev, k);
    if k > 0 {
      ReorderExactIff(cached, PendingOf(s.disk), PendingOf(Cut(cfg, s, ev, k)), cfg.cooldown);
    }
  }

  lemma {:induction false} ClientExactIff(cfg: Config, s: State, ev: Event, k: nat, cached: AwaitSchedule)
    requires Enabled(cfg, s, ev) && (ev.Put? || ev.Del?) && k <= |Ops(cfg, s, ev)|
    requires Exact(cached, PendingOf(s.disk), cfg.cooldown)
    ensures WellKeyed(Cut(cfg, s, ev, k).entries)
    ensures Exact(cached, PendingOf(Cut(cfg, s, ev, k)), cfg.cooldown) <==> Harmless(cfg, s, ev, k, cached.builtAt)
  {
    hide Exact, Run, Refusal, NewEntry;
    var d, ops := s.disk, Ops(cfg, s, ev);
    assert ev.Put? ==> ops[0].entry.id == ev.id by { NewEntryNames(cfg, s, ev); }
    if |ops| <= 1 {
      RunShort(d, ops, k);
    } else {
      RunPair(d, ops[0], ops[1], k);
      assert ops == [ops[0], ops[1]];
    }
    var d' := Cut(cfg, s, ev, k);
    if d'.entries.Keys != d.entries.Keys {
      OtherKeysInexact(cached, PendingOf(d), PendingOf(d'), cfg.cooldown);
    }
  }

  lemma RecordExact(cfg: Config, s: State, ev: Event, k: nat)
    requires Enabled(cfg, s, ev) && ev.Record? && k <= |Ops(cfg, s, ev)|
    ensures PendingOf(Cut(cfg, s, ev, k)) == PendingOf(s.disk)
  {
    hide Run, AppendOps, AppendedBytes;
    RunAppend(s.disk, AppendedBytes(cfg.codec, s.disk.history, Failure(s, ev)), k);
  }

  /**
  For every operation of a running daemon cut after any number of its file
  operations, in any reachable state, and for the cached projection of any
  second: what the operation leaves keeps the projection exact if and only if
  the cut is harmless.
  */
  lemma {:induction false} CutExactIff(cfg: Config, s: State, ev: Event, k: nat, cached: AwaitSchedule)
    requires Reachable(cfg, s) && Enabled(cfg, s, ev) && s.open && !Sudden(ev) && k <= |Ops(cfg, s, ev)|
    requires Exact(cached, PendingOf(s.disk), cfg.cooldown)
    ensures WellKeyed(Cut(cfg, s, ev, k).entries)
    ensures Exact(cached, PendingOf(Cut(cfg, s, ev, k)), cfg.cooldown) <==> Harmless(cfg, s, ev, k, cached.builtAt)
  {
    hide Exact, Run, Inv, Reachable, Cut;
    ReachableInv(cfg, s);
    if ev.Complete? {
      CompleteExactIff(cfg, s, ev, k, cached);
    } else if ev.Restart? {
      RestartLine(cfg, s, ev, k);
      ReconcileExactIff(cfg.codec, s.disk, k, Cut(cfg, s, ev, k), cfg.cooldown, cached);
    } else if ev.Claim? || ev.Release? {
      ClaimExactIff(cfg, s, ev, k, cached);
    } else if ev.Bump? || ev.Bust? {
      ReorderCutExactIff(cfg, s, ev, k, cached);
    } else if ev.Put? || ev.Del? {
      ClientExactIff(cfg, s, ev, k, cached);
    } else {
      RecordExact(cfg, s, ev, k);
    }
  }

  // The queue state of a running daemon.

  /** The name under which an event's operation takes the mutex. */
  function OperationOf(ev: Event): string
    requires !Sudden(ev) && !ev.Reopen?
  {
    if ev.Restart? then "recover_worker_state"
    else if ev.Claim? then "claim_next_due"
    else if ev.Complete? then "complete"
    else if ev.Record? then "append_history"
    else if ev.Release? then "release_claim"
    else if ev.Put? then "put"
    else if ev.Bump? then "bump"
    else if ev.Bust? then "bust"
    else "del"
  }

  /** An operation whose success is not published changes nothing that is projected. */
  lemma UnpublishedChangesNothing(cfg: Config, s: State, ev: Event)
    requires Enabled(cfg, s, ev) && !Sudden(ev) && !ev.Reopen?
    ensures IsStateMutation(OperationOf(ev)) <==> !ev.Record?
    ensures !IsStateMutation(OperationOf(ev)) ==> PendingOf(Left(cfg, s, ev)) == PendingOf(s.disk)
  {
    hide Run, Ops;
    if ev.Record? {
      RecordExact(cfg, s, ev, ev.done);
    }
  }

  /** A wait's lookup, or an event of the daemon with the directory it leaves. */
  datatype Action =
    | Look(id: string, cursor: Option<AwaitCursor>, now: U64)
    | Do(ev: Event, after: Disk)

  /** The actions are those of a run in which every operation that fails is cut harmlessly. */
  ghost predicate Acts(cfg: Config, s: State, actions: seq<Action>)
    decreases |actions|
  {
    actions == [] ||
    match actions[0]
    case Look(_, _, _) => Acts(cfg, s, actions[1..])
    case Do(ev, after) =>
      && Enabled(cfg, s, ev) && !ev.Crash? && after == Left(cfg, s, ev)
      && (!Sudden(ev) && !ev.ok ==> forall now :: Harmless(cfg, s, ev, ev.done, now))
      && Acts(cfg, Step(cfg, s, ev), actions[1..])
  }

  /** The directory after the first `n` actions. */
  function DiskAt(d: Disk, actions: seq<Action>, n: nat): Disk
    requires n <= |actions|
  {
    if n == 0 then d else if actions[n - 1].Do? then actions[n - 1].after else DiskAt(d, actions, n - 1)
  }

  /** One event of the daemon, through the shared queue state: the cache stays exact. */
  method Perform(queue: QueueState, ghost cfg: Config, ghost s: State, ev: Event, after: Disk)
    requires queue.Valid() && queue.disk == s.disk && queue.cooldown == cfg.cooldown
    requires Reachable(cfg, s) && s.open && Enabled(cfg, s, ev) && !ev.Crash? && after == Left(cfg, s, ev)
    requires !Sudden(ev) && !ev.ok ==> forall now :: Harmless(cfg, s, ev, ev.done, now)
    modifies queue
    ensures queue.Valid() && queue.disk == after
  {
    hide Exact, Inv, Reachable, Ops, Run, Harmless;
    if ev.Die? {
      return;
    }
    assert WellKeyed(after.entries) by { LeftKeyed(cfg, s, ev); }
    UnpublishedChangesNothing(cfg, s, ev);
    if queue.awaitSchedule.Some? && !ev.ok {
      CutExactIff(cfg, s, ev, ev.done, queue.awaitSchedule.value);
    }
    var _ := queue.WithState(OperationOf(ev), _ => (after, ev.ok));
  }

  lemma LeftKeyed(cfg: Config, s: State, ev: Event)
    requires Reachable(cfg, s) && Enabled(cfg, s, ev)
    ensures WellKeyed(Left(cfg, s, ev).entries)
  {
    hide Inv, Reachable, Enabled, Ops, Run, Left;
    ReachableInv(cfg, s);
    StepKeeps(cfg, s, ev);
    InvKeyed(cfg, Step(cfg, s, ev));
    assert Step(cfg, s, ev).disk == Left(cfg, s, ev) by { LeftByStep(cfg, s, ev); }
  }

  lemma InvKeyed(cfg: Config, s: State)
    requires Inv(cfg, s)
    ensures WellKeyed(s.disk.entries)
  {
    hide QueueInv, TimeInv;
  }

  /**
  Over every run of the daemon's own operations, lookups and clock readings, in
  which the operations that fail are cut harmlessly, every lookup is answered
  with the estimate a fresh listing of that moment would give.
  */
  method ServeRun(queue: QueueState, ghost cfg: Config, ghost s: State, actions: seq<Action>)
    returns (answers: seq<Option<(AwaitState, U64)>>)
    requires queue.Valid() && queue.disk == s.disk && queue.cooldown == cfg.cooldown
    requires Reachable(cfg, s) && s.open && Acts(cfg, s, actions)
    modifies queue
    ensures queue.Valid() && queue.disk == DiskAt(s.disk, actions, |actions|)
    ensures |answers| == |actions|
    ensures forall i :: 0 <= i < |actions| && actions[i].Look? ==>
      var d := DiskAt(s.disk, actions, i);
      WellKeyed(d.entries) && answers[i] == FreshAnswer(d, cfg.cooldown, actions[i].id, actions[i].cursor, actions[i].now)
  {
    hide Exact, Inv, Reachable, Enabled, Step, Harmless, FreshAnswer, Left;
    answers := [];
    ghost var now := s;
    for i := 0 to |actions|
      invariant queue.Valid() && queue.disk == now.disk == DiskAt(s.disk, actions, i) && now.open && Reachable(cfg, now)
      invariant Acts(cfg, now, actions[i..]) && |answers| == i
      invariant forall k :: 0 <= k < i && actions[k].Look? ==>
        var d := DiskAt(s.disk, actions, k);
        WellKeyed(d.entries) && answers[k] == FreshAnswer(d, cfg.cooldown, actions[k].id, actions[k].cursor, actions[k].now)
    {
      assert actions[i..][0] == actions[i] && actions[i..][1..] == actions[i + 1..];
      match actions[i] {
        case Look(id, cursor, at) =>
          var answer := queue.ResolvePending(id, cursor, at);
          answers := answers + [answer];
        case Do(ev, after) =>
          Perform(queue, cfg, now, ev, after);
          LeftByStep(cfg, now, ev);
          ReachableStep(cfg, now, ev);
          StillOpen(cfg, now, ev);
          now := Step(cfg, now, ev);
          answers := answers + [None];
      }
    }
  }

  lemma StillOpen(cfg: Config, s: State, ev: Event)
    requires Enabled(cfg, s, ev) && s.open && !ev.Crash?
    ensures Step(cfg, s, ev).open
  {
    hide Ops, Run;
  }
}
