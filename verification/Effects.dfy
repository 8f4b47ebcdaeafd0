/**
What the daemon's operations leave behind, said without the lists of file
operations they are made of, and what of it lasts over runs.
*/
module Effects {
  import opened Base
  import opened HistoryLog
  import opened QueueOrder
  import opened Scheduling
  import opened Bounds
  import opened Disk
  import opened StoreSteps
  import opened Machine
  import opened Lineage
  import opened WorkerTurn

  // Put.

  /** A put that took effect queues exactly its own lifetime, behind all others as far as order keys allow, and touches nothing else. */
  lemma PutEffect(cfg: Config, s: State, ev: Event)
    requires Enabled(cfg, s, ev) && ev.Put? && ev.done > 0
    ensures
      var m, d' := s.disk.entries, Step(cfg, s, ev).disk;
      && ev.id !in m && ev.id in d'.entries && WellKeyed(d'.entries)
      && d' == s.disk.(entries := m[ev.id := d'.entries[ev.id]])
      && var e, all := d'.entries[ev.id], Queue(m);
         && e.id == ev.id && e.incarnation == ev.incarnation && e.claimToken == None
         && Carries(e, cfg.cooldown, ev.request, ev.flutter, ev.immediate, ev.now)
         && (all == [] || all[|all| - 1].order < I64_MAX ==> Queue(d'.entries) == all + [e])
  {
    hide Run, Refusal, Queue;
    RunShort(s.disk, Ops(cfg, s, ev), 1);
    PutIsAppend(s.disk.entries, Ops(cfg, s, ev)[0].entry);
  }

  // What a lifetime was put with stays with it.

  /** The entries of this lifetime were there before, with the fields no operation changes. */
  ghost predicate SameLifetime(m: Entries, m': Entries, incarnation: string) {
    forall id :: id in m' && m'[id].incarnation == incarnation ==>
      id in m && m[id].incarnation == incarnation && SameFixed(m'[id], m[id])
  }

  lemma ReconcileFixed(c: Codec, d: Disk, k: nat, incarnation: string)
    requires k <= |ReconcileOps(c, d)|
    ensures SameLifetime(d.entries, Run(d, ReconcileOps(c, d)[..k]).entries, incarnation)
  {
    hide Run, ReconcileOps, UnmarkOps, DropOps;
    if d.journal.None? {
      NoJournal(c, d);
    } else {
      ReconcileEffect(c, d, k);
    }
  }

  lemma ReclaimFixed(cfg: Config, used: set<string>, mid: Disk, uuid: string -> string, k: nat, incarnation: string)
    requires Admitted(cfg.fixed, mid.entries) && WellKeyed(mid.entries) && Uuids(uuid, mid.entries)
    requires forall id :: Nameless(mid.entries, id) ==> uuid(id) !in used
    requires incarnation in used && incarnation != "" && k <= |ReclaimOps(Queue(mid.entries), uuid)|
    ensures SameLifetime(mid.entries, Run(mid, ReclaimOps(Queue(mid.entries), uuid)[..k]).entries, incarnation)
  {
    hide Admitted, Run, ReclaimOps, Uuids, Refusal, StandIn, Queue;
    QueueStands(mid.entries);
    ReclaimEffect(cfg.fixed, mid, Queue(mid.entries), uuid, k);
    var m, m' := mid.entries, Run(mid, ReclaimOps(Queue(mid.entries), uuid)[..k]).entries;
    forall id | id in m' && m'[id].incarnation == incarnation
      ensures id in m && m[id].incarnation == incarnation && SameFixed(m'[id], m[id])
    {
      AdmittedEntry(cfg.fixed, m, id);
      assert m[id].incarnation == "" ==> Nameless(m, id);
    }
  }

  lemma {:induction false} RecoverFixed(cfg: Config, s: State, uuid: string -> string, k: nat, incarnation: string)
    requires Inv(cfg, s) && s.worker.Down? && NewUuids(s, uuid) && k <= |RecoverOps(cfg.codec, s.disk, uuid)|
    requires incarnation in s.used && incarnation != ""
    ensures SameLifetime(s.disk.entries, Run(s.disk, RecoverOps(cfg.codec, s.disk, uuid)[..k]).entries, incarnation)
  {
    hide Admitted, Run, ReclaimOps, ReconcileOps, QueueInv, TimeInv, Uuids, Queue;
    var a := ReconcileOps(cfg.codec, s.disk);
    var mid := Run(s.disk, a);
    assert a[..|a|] == a;
    ReconcileKeeps(cfg, s, |a|);
    AdmittedKeyed(cfg.fixed, mid.entries);
    var b := ReclaimOps(Queue(mid.entries), uuid);
    assert RecoverOps(cfg.codec, s.disk, uuid) == a + b;
    if k < |a| {
      RunPrefix(s.disk, a, b, k);
      ReconcileFixed(cfg.codec, s.disk, k, incarnation);
    } else {
      RunPrefixRest(s.disk, a, b, k);
      ReconcileFixed(cfg.codec, s.disk, |a|, incarnation);
      FewerEntries(cfg, s, uuid, |a|);
      ReclaimFixed(cfg, s.used, mid, uuid, k - |a|, incarnation);
    }
  }

  lemma {:induction false} ReopenFixed(cfg: Config, s: State, ev: Event, incarnation: string)
    requires Inv(cfg, s) && Enabled(cfg, s, ev) && ev.Reopen? && incarnation in s.used && incarnation != ""
    ensures SameLifetime(s.disk.entries, Left(cfg, s, ev).entries, incarnation)
  {
    hide Admitted, Run, RecoverOps, QueueInv, TimeInv, QueueOrNone, NewUuids, UnmarkQueuedOps;
    var a := RecoverOps(cfg.codec, s.disk, ev.uuid);
    assert s.worker.Down? by { ClosedIsDown(s); }
    assert a[..|a|] == a;
    var mid := Run(s.disk, a);
    var u := UnmarkQueuedOps(QueueOrNone(mid.entries), mid.tombstones);
    RecoverFixed(cfg, s, ev.uuid, Min(ev.done, |a|), incarnation);
    if ev.done <= |a| {
      RunPrefix(s.disk, a, u, ev.done);
    } else {
      RunPrefixRest(s.disk, a, u, ev.done);
      UnmarkQueuedEffect(mid, QueueOrNone(mid.entries), mid.tombstones, ev.done - |a|);
    }
  }

  lemma ClosedIsDown(s: State)
    requires QueueInv(s) && !s.open
    ensures s.worker.Down?
  {
  }

  lemma CompleteFixed(cfg: Config, s: State, ev: Event, incarnation: string)
    requires Enabled(cfg, s, ev) && ev.Complete?
    ensures SameLifetime(s.disk.entries, Left(cfg, s, ev).entries, incarnation)
  {
    hide Run, ReconcileOps;
    var j := CompletionJournal(s.disk, s.worker.entry, Success(s, ev));
    var journaled := s.disk.(journal := Some(j));
    var ops := ReconcileOps(cfg.codec, journaled);
    if ev.done == 0 {
      RunShort(s.disk, [], 0);
    } else {
      RunPrefixRest(s.disk, [SetJournal(j)], ops, ev.done);
      RunShort(s.disk, [SetJournal(j)], 1);
      ReconcileFixed(cfg.codec, journaled, ev.done - 1, incarnation);
    }
  }

  lemma OtherFixed(cfg: Config, s: State, ev: Event, incarnation: string)
    requires Enabled(cfg, s, ev) && (ev.Record? || ev.Put? || ev.Del?) && incarnation in s.used
    ensures SameLifetime(s.disk.entries, Left(cfg, s, ev).entries, incarnation)
  {
    hide Run, Refusal, AppendOps, AppendedBytes, Queue;
    if ev.Record? {
      RunAppend(s.disk, AppendedBytes(cfg.codec, s.disk.history, Failure(s, ev)), ev.done);
    } else {
      var ops := Ops(cfg, s, ev);
      if |ops| <= 1 {
        RunShort(s.disk, ops, ev.done);
      } else {
        RunPair(s.disk, ops[0], ops[1], ev.done);
        assert ops == [ops[0], ops[1]];
      }
    }
  }

  /** No event changes what a known lifetime was put with, nor queues it again. */
  lemma {:induction false} StepFixed(cfg: Config, s: State, ev: Event, incarnation: string)
    requires Inv(cfg, s) && Enabled(cfg, s, ev) && incarnation in s.used && incarnation != ""
    ensures SameLifetime(s.disk.entries, Step(cfg, s, ev).disk.entries, incarnation) && incarnation in Step(cfg, s, ev).used
  {
    hide Admitted, QueueInv, TimeInv, Run, Ops, Drawn, SameLifetime;
    match ev
    case Crash => Unmoved(s.disk.entries, incarnation);
    case Die => Unmoved(s.disk.entries, incarnation);
    case Reopen(uuid, _, _) =>
      DrawnIncludes(s, uuid);
      ReopenFixed(cfg, s, ev, incarnation);
    case Restart(uuid, done, _) =>
      DrawnIncludes(s, uuid);
      RestartOpsAre(cfg, s, ev);
      RecoverFixed(cfg, s, uuid, done, incarnation);
    case Complete(_, _, _, _, _, _) => CompleteFixed(cfg, s, ev, incarnation);
    case Record(_, _, _, _, _, _) => OtherFixed(cfg, s, ev, incarnation);
    case Put(_, _, _, _, _, _, _, _) => OtherFixed(cfg, s, ev, incarnation);
    case Del(_, _, _) => OtherFixed(cfg, s, ev, incarnation);
    case _ =>
      RewrittenLives(cfg, s, ev, ev.done);
      Rewritten(s.disk.entries, Left(cfg, s, ev).entries, incarnation);
  }

  lemma DrawnIncludes(s: State, uuid: string -> string)
    ensures s.used <= Drawn(s, uuid)
  {
  }

  lemma RestartOpsAre(cfg: Config, s: State, ev: Event)
    requires Enabled(cfg, s, ev) && ev.Restart?
    ensures Ops(cfg, s, ev) == RecoverOps(cfg.codec, s.disk, ev.uuid)
  {
  }

  lemma Unmoved(m: Entries, incarnation: string)
    ensures SameLifetime(m, m, incarnation)
  {
  }

  lemma Rewritten(m: Entries, m': Entries, incarnation: string)
    requires m'.Keys == m.Keys && forall id :: id in m ==> m'[id].incarnation == m[id].incarnation && SameFixed(m'[id], m[id])
    ensures SameLifetime(m, m', incarnation)
  {
  }

  lemma {:induction false} RunFixed(cfg: Config, s: State, evs: seq<Event>, incarnation: string)
    requires Inv(cfg, s) && IsRun(cfg, s, evs) && incarnation in s.used && incarnation != ""
    ensures SameLifetime(s.disk.entries, Reached(cfg, s, evs).disk.entries, incarnation)
    decreases |evs|
  {
    hide Inv, Enabled, Step;
    if evs != [] {
      StepKeeps(cfg, s, evs[0]);
      StepFixed(cfg, s, evs[0], incarnation);
      RunFixed(cfg, Step(cfg, s, evs[0]), evs[1..], incarnation);
    }
  }

  // When what was put is claimed.

  /** An idle worker claims the head exactly from the moment on that floor, last post and last attempt allow. */
  lemma {:induction false} ClaimIff(cfg: Config, s: State, at: U64, token: string)
    requires Ready(cfg, s, at) && NewUuid(s, token)
    ensures WellKeyed(s.disk.entries) && Queue(s.disk.entries) != []
    ensures
      var head, claim := Queue(s.disk.entries)[0], Claim(at, token, 1, true);
      && (Claims(cfg, s, claim) <==>
        at >= head.notBefore && Past(s.disk.lastPost, cfg.cooldown, head, at) && Past(s.disk.lastAttempt, cfg.cooldown, head, at))
      && (Claims(cfg, s, claim) ==>
        var e := head.(claimToken := Some(token));
        Step(cfg, s, claim) == s.(disk := s.disk.(entries := s.disk.entries[e.id := e]), clock := at,
                                  used := s.used + {token}, worker := Posting(e)))
  {
    hide Reachable, Queue;
    ReadyFacts(cfg, s, at);
    DueIff(PendingOf(s.disk), cfg.cooldown, at);
    ClaimsFrom(cfg, s, at, at, token);
    if HeadTime(PendingOf(s.disk), cfg.cooldown, at) <= at {
      ClaimedHead(cfg, s, at, at, token);
    }
  }

  /**
  Over whole runs: once a lifetime was put, then after any events, crashes and
  recoveries, failed posts and reorderings included, an idle worker that finds
  it at the head claims it at a moment if and only if the put was immediate or
  cooldown and flutter have passed since, and cooldown and flutter have passed
  since the last post and the last attempt.
  */
  lemma {:induction false} PutGovernsClaim(cfg: Config, s: State, put: Event, evs: seq<Event>, at: U64, token: string)
    requires Reachable(cfg, s) && Enabled(cfg, s, put) && put.Put? && put.done > 0 && IsRun(cfg, Step(cfg, s, put), evs)
    requires
      var s' := Reached(cfg, Step(cfg, s, put), evs);
      && Ready(cfg, s', at) && NewUuid(s', token) && WellKeyed(s'.disk.entries)
      && Queue(s'.disk.entries) != [] && Queue(s'.disk.entries)[0].incarnation == put.incarnation
    ensures
      var s' := Reached(cfg, Step(cfg, s, put), evs);
      var head := Queue(s'.disk.entries)[0];
      && head.id == put.id && head.request == put.request
      && (Claims(cfg, s', Claim(at, token, 1, true)) <==>
        && (put.immediate || at == U64_MAX || at >= put.now + cfg.cooldown + put.flutter)
        && (s'.disk.lastPost.Some? ==> at == U64_MAX || at >= s'.disk.lastPost.value + cfg.cooldown + put.flutter)
        && (s'.disk.lastAttempt.Some? ==> at == U64_MAX || at >= s'.disk.lastAttempt.value + cfg.cooldown + put.flutter))
  {
    hide Reachable, Enabled, Step, IsRun, Reached, Queue, Claims, Ready;
    var s' := Reached(cfg, Step(cfg, s, put), evs);
    var id := HeadId(cfg, s', at);
    PutStays(cfg, s, put, evs, id);
    ClaimIff(cfg, s', at, token);
  }

  /** With nothing queued and nothing posted or attempted before, an immediate put is claimed at once. */
  lemma ImmediateIsDue(cfg: Config, s: State, put: Event, at: U64, token: string)
    requires Reachable(cfg, s) && Enabled(cfg, s, put) && put.Put? && put.done > 0 && put.immediate
    requires s.worker.Idle? && s.disk.entries == map[] && s.disk.lastPost == None && s.disk.lastAttempt == None
    requires put.now <= at && NewUuid(Step(cfg, s, put), token)
    ensures Claims(cfg, Step(cfg, s, put), Claim(at, token, 1, true))
  {
    hide Reachable, Ops, Run, Refusal, Queue, Claims;
    PutEffect(cfg, s, put);
    ReachableStep(cfg, s, put);
    var s1 := Step(cfg, s, put);
    assert put.id in s1.disk.entries;
    ClaimIff(cfg, s1, at, token);
    assert Queue(s1.disk.entries)[0] == s1.disk.entries[put.id] by { ReadyFacts(cfg, s1, at); }
  }

  lemma HeadId(cfg: Config, s: State, at: U64) returns (id: string)
    requires Ready(cfg, s, at)
    ensures WellKeyed(s.disk.entries) && Queue(s.disk.entries) != []
    ensures id in s.disk.entries && s.disk.entries[id] == Queue(s.disk.entries)[0]
  {
    hide Reachable, Queue;
    ReadyFacts(cfg, s, at);
    id := Queue(s.disk.entries)[0].id;
  }

  /** While a lifetime is queued, it is the comment that was put, with its flutter, second and floor. */
  lemma {:induction false} PutStays(cfg: Config, s: State, put: Event, evs: seq<Event>, id: string)
    requires Reachable(cfg, s) && Enabled(cfg, s, put) && put.Put? && put.done > 0 && IsRun(cfg, Step(cfg, s, put), evs)
    requires
      var m := Reached(cfg, Step(cfg, s, put), evs).disk.entries;
      id in m && m[id].incarnation == put.incarnation
    ensures
      var e := Reached(cfg, Step(cfg, s, put), evs).disk.entries[id];
      && id == put.id == e.id
      && Carries(e, cfg.cooldown, put.request, put.flutter, put.immediate, put.now)
  {
    hide Inv, Reachable, IsRun, Reached, Queue;
    ReachableInv(cfg, s);
    PutEffect(cfg, s, put);
    StepKeeps(cfg, s, put);
    var s1 := Step(cfg, s, put);
    NewLife(cfg, s, put);
    RunFixed(cfg, s1, evs, put.incarnation);
  }

  /** The lifetime of a put is drawn with it, and no other entry has it. */
  lemma NewLife(cfg: Config, s: State, put: Event)
    requires Inv(cfg, s) && Enabled(cfg, s, put) && put.Put?
    ensures put.incarnation in Step(cfg, s, put).used && put.incarnation != ""
    ensures forall id :: id in s.disk.entries ==> s.disk.entries[id].incarnation != put.incarnation
  {
    hide Admitted, TimeInv, Ops, Run, Refusal;
  }

  // The other changes to the queue.

  /** Releasing the worker's claim clears it and records the attempt, unless the entry is gone or claimed by another. */
  lemma ReleaseEffect(cfg: Config, s: State, ev: Event)
    requires Enabled(cfg, s, ev) && ev.Release? && ev.ok && s.worker.entry.claimToken.Some?
    ensures
      var e, m := s.worker.entry, s.disk.entries;
      if e.id in m && m[e.id].claimToken == e.claimToken
      then
        var at := match s.disk.lastAttempt case None => ev.now case Some(t) => Max(t, ev.now);
        Step(cfg, s, ev).disk == s.disk.(entries := m[e.id := m[e.id].(claimToken := None)], lastAttempt := Some(at))
      else Step(cfg, s, ev).disk == s.disk
  {
    hide Run;
    var ops := Ops(cfg, s, ev);
    assert ops[..|ops|] == ops;
    if ops == [] {
      RunShort(s.disk, ops, 0);
    } else {
      assert ops == [ops[0], ops[1]];
      RunPair(s.disk, ops[0], ops[1], 2);
    }
  }

  /** A reordering rewrites one order key and leaves all else as it was. */
  ghost predicate Reorders(d: Disk, d': Disk, id: string)
    requires id in d.entries
  {
    && id in d'.entries && WellKeyed(d'.entries)
    && d' == d.(entries := d.entries[id := d.entries[id].(order := d'.entries[id].order)])
  }

  /** A bump moves its entry to the front of the queue, as far as order keys allow. */
  lemma BumpEffect(cfg: Config, s: State, ev: Event)
    requires Enabled(cfg, s, ev) && ev.Bump? && ev.ok
    ensures ev.id !in s.disk.entries ==> Step(cfg, s, ev).disk == s.disk
    ensures ev.id in s.disk.entries ==>
      var d', all := Step(cfg, s, ev).disk, Queue(s.disk.entries);
      && Reorders(s.disk, d', ev.id) && all != []
      && (all[0].id == ev.id ==> d' == s.disk)
      && (all[0].order > I64_MIN ==> Queue(d'.entries) == [d'.entries[ev.id]] + Without(all, ev.id))
  {
    hide Enabled, Step, Queue, Without, BumpOrder;
    ReorderStep(cfg, s, ev);
    if ev.id in s.disk.entries {
      BumpIsMoveToFront(s.disk.entries, ev.id);
      HeadStays(s.disk.entries, ev.id);
    }
  }

  /** A bust moves its entry to the back. */
  lemma BustEffect(cfg: Config, s: State, ev: Event)
    requires Enabled(cfg, s, ev) && ev.Bust? && ev.ok
    ensures ev.id !in s.disk.entries ==> Step(cfg, s, ev).disk == s.disk
    ensures ev.id in s.disk.entries ==>
      var d', all := Step(cfg, s, ev).disk, Queue(s.disk.entries);
      && Reorders(s.disk, d', ev.id) && all != []
      && (all[|all| - 1].id == ev.id ==> d' == s.disk)
      && (all[|all| - 1].order < I64_MAX ==> Queue(d'.entries) == Without(all, ev.id) + [d'.entries[ev.id]])
  {
    hide Enabled, Step, Queue, Without, BustOrder;
    ReorderStep(cfg, s, ev);
    if ev.id in s.disk.entries {
      BustIsMoveToBack(s.disk.entries, ev.id);
      TailStays(s.disk.entries, ev.id);
    }
  }

  lemma ReorderStep(cfg: Config, s: State, ev: Event)
    requires Enabled(cfg, s, ev) && (ev.Bump? || ev.Bust?) && ev.ok
    ensures WellKeyed(s.disk.entries)
    ensures ev.id !in s.disk.entries ==> Step(cfg, s, ev).disk == s.disk
    ensures ev.id in s.disk.entries ==>
      var m, all := s.disk.entries, Queue(s.disk.entries);
      var order := if ev.Bump? then BumpOrder(m[ev.id], all) else BustOrder(m[ev.id], all);
      Step(cfg, s, ev).disk == s.disk.(entries := m[ev.id := m[ev.id].(order := order)])
  {
    hide Run, Queue, BumpOrder, BustOrder;
    RunShort(s.disk, Ops(cfg, s, ev), ev.done);
  }

  lemma HeadStays(m: Entries, id: string)
    requires WellKeyed(m) && id in m
    ensures
      var all := Queue(m);
      all != [] && all[0].id == id ==> m[id := m[id].(order := BumpOrder(m[id], all))] == m
  {
    hide Queue;
  }

  lemma TailStays(m: Entries, id: string)
    requires WellKeyed(m) && id in m
    ensures
      var all := Queue(m);
      all != [] && all[|all| - 1].id == id ==> m[id := m[id].(order := BustOrder(m[id], all))] == m
  {
    hide Queue;
  }

  /** A deletion removes its entry alone, and marks the lifetime it removed. */
  lemma DelEffect(cfg: Config, s: State, ev: Event)
    requires Enabled(cfg, s, ev) && ev.Del? && ev.ok
    ensures
      var m := s.disk.entries;
      Step(cfg, s, ev).disk ==
        if ev.id !in m then s.disk
        else s.disk.(entries := m - {ev.id}, tombstones := s.disk.tombstones[ev.id := m[ev.id].incarnation])
  {
    hide Run;
    var ops := Ops(cfg, s, ev);
    assert ops[..|ops|] == ops;
    if ops == [] {
      RunShort(s.disk, ops, 0);
    } else {
      assert ops == [ops[0], ops[1]];
      RunPair(s.disk, ops[0], ops[1], 2);
    }
  }
}
