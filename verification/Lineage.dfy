/** Which lifetimes the events of an open store can leave in the queue. */
module Lineage {
  import opened Base
  import opened HistoryLog
  import opened QueueOrder
  import opened Bounds
  import opened Disk
  import opened StoreSteps
  import opened Machine

  /** Entries of an open store keep their lifetimes. */
  ghost predicate SameLives(m: Entries, m': Entries) {
    forall id :: id in m' ==> id in m && m'[id].incarnation == m[id].incarnation
  }

  lemma {:induction false} RestartLives(cfg: Config, s: State, ev: Event)
    requires Inv(cfg, s) && ev.Restart? && Enabled(cfg, s, ev)
    ensures SameLives(s.disk.entries, Step(cfg, s, ev).disk.entries)
  {
    hide Admitted, Run, ReclaimOps, ReconcileOps, QueueInv, TimeInv, SameLives, Drawn;
    var a := ReconcileOps(cfg.codec, s.disk);
    var mid := Run(s.disk, a);
    assert a[..|a|] == a;
    ReconcileKeeps(cfg, s, |a|);
    AdmittedKeyed(cfg.fixed, mid.entries);
    var b := ReclaimOps(Queue(mid.entries), ev.uuid);
    assert RecoverOps(cfg.codec, s.disk, ev.uuid) == a + b;
    if ev.done < |a| {
      RunPrefix(s.disk, a, b, ev.done);
      ReconcileLives(cfg.codec, s.disk, ev.done);
    } else {
      RunPrefixRest(s.disk, a, b, ev.done);
      ReconcileLives(cfg.codec, s.disk, |a|);
      assert Uuids(ev.uuid, mid.entries) by { FewerEntries(cfg, s, ev.uuid, |a|); }
      ReclaimLifetimes(cfg, s, mid, ev.uuid, ev.done - |a|);
    }
  }

  lemma {:induction false} ReclaimLifetimes(cfg: Config, s: State, mid: Disk, uuid: string -> string, k: nat)
    requires QueueInv(s) && s.open && Admitted(cfg.fixed, mid.entries) && WellKeyed(mid.entries) && Uuids(uuid, mid.entries)
    requires SameLives(s.disk.entries, mid.entries) && k <= |ReclaimOps(Queue(mid.entries), uuid)|
    ensures SameLives(s.disk.entries, Run(mid, ReclaimOps(Queue(mid.entries), uuid)[..k]).entries)
  {
    hide Admitted, Run, ReclaimOps, QueueInv, Uuids, Refusal, StandIn, Queue;
    QueueStands(mid.entries);
    ReclaimEffect(cfg.fixed, mid, Queue(mid.entries), uuid, k);
    OpenLive(s);
  }

  lemma ReconcileLives(c: Codec, d: Disk, k: nat)
    requires k <= |ReconcileOps(c, d)|
    ensures SameLives(d.entries, Run(d, ReconcileOps(c, d)[..k]).entries)
  {
    hide Run, ReconcileOps, UnmarkOps, DropOps;
    if d.journal.None? {
      NoJournal(c, d);
    } else {
      ReconcileEffect(c, d, k);
    }
  }

  lemma CompleteLives(cfg: Config, s: State, ev: Event)
    requires ev.Complete? && Enabled(cfg, s, ev)
    ensures SameLives(s.disk.entries, Step(cfg, s, ev).disk.entries)
  {
    hide Run, ReconcileOps;
    var j := CompletionJournal(s.disk, s.worker.entry, Success(s, ev));
    var journaled := s.disk.(journal := Some(j));
    var ops := ReconcileOps(cfg.codec, journaled);
    if ev.done == 0 {
      RunShort(s.disk, [], 0);
    } else {
      RunPrefixRest(s.disk, [SetJournal(j)], ops, ev.done);
      RunShort(s.disk, [SetJournal(j)], 1);
      ReconcileLives(cfg.codec, journaled, ev.done - 1);
    }
  }

  /** Claims, releases, bumps and busts rewrite one entry within its lifetime, with the last file operation. */
  lemma RewrittenLives(cfg: Config, s: State, ev: Event, k: nat)
    requires Enabled(cfg, s, ev) && (ev.Claim? || ev.Release? || ev.Bump? || ev.Bust?) && k <= |Ops(cfg, s, ev)|
    ensures
      var d := Run(s.disk, Ops(cfg, s, ev)[..k]);
      && d == s.disk.(entries := d.entries, lastAttempt := d.lastAttempt) && d.entries.Keys == s.disk.entries.Keys
      && (forall id :: id in s.disk.entries ==>
        d.entries[id].incarnation == s.disk.entries[id].incarnation && SameFixed(d.entries[id], s.disk.entries[id]))
      && (k < |Ops(cfg, s, ev)| ==> d.entries == s.disk.entries)
  {
    hide Run, Queue, BumpOrder, BustOrder;
    var ops := Ops(cfg, s, ev);
    if |ops| <= 1 {
      RunShort(s.disk, ops, k);
    } else {
      RunPair(s.disk, ops[0], ops[1], k);
      assert ops == [ops[0], ops[1]];
    }
    if ops != [] && ev.Claim? {
      HeadQueued(s.disk.entries);
    }
  }

  lemma HeadQueued(m: Entries)
    requires WellKeyed(m) && Queue(m) != []
    ensures Queue(m)[0].id in m && m[Queue(m)[0].id] == Queue(m)[0]
  {
    assert Queue(m)[0] in Queue(m);
  }

  lemma ShortLives(cfg: Config, s: State, ev: Event)
    requires (ev.Release? || ev.Del? || ev.Bump? || ev.Bust?) && Enabled(cfg, s, ev)
    ensures SameLives(s.disk.entries, Step(cfg, s, ev).disk.entries)
  {
    hide Run, DelOps, ReleaseOps, BumpOps, BustOps;
    if ev.Del? {
      DeletedLives(s.disk, ev.id, ev.done);
    } else {
      RewrittenLives(cfg, s, ev, ev.done);
    }
  }

  lemma DeletedLives(d: Disk, id: string, k: nat)
    requires k <= |DelOps(d, id)|
    ensures SameLives(d.entries, Run(d, DelOps(d, id)[..k]).entries)
  {
    hide Run;
    var ops := DelOps(d, id);
    if ops == [] {
      RunShort(d, ops, k);
    } else {
      RunPair(d, ops[0], ops[1], k);
      assert ops == [ops[0], ops[1]];
    }
  }

  lemma RecordLives(cfg: Config, s: State, ev: Event)
    requires ev.Record? && Enabled(cfg, s, ev)
    ensures SameLives(s.disk.entries, Step(cfg, s, ev).disk.entries)
  {
    hide Run, AppendOps, AppendedBytes;
    RunAppend(s.disk, AppendedBytes(cfg.codec, s.disk.history, Failure(s, ev)), ev.done);
  }

  lemma OpenLive(s: State)
    requires QueueInv(s) && s.open
    ensures AllLive(s.disk.entries)
  {
  }

  /** A put adds its own lifetime and a claim none. */
  lemma ClientLives(cfg: Config, s: State, ev: Event)
    requires (ev.Put? || ev.Claim?) && Enabled(cfg, s, ev)
    ensures
      var m, m' := s.disk.entries, Step(cfg, s, ev).disk.entries;
      forall id :: id in m' ==>
        || (id in m && m'[id].incarnation == m[id].incarnation)
        || (ev.Put? && m'[id].incarnation == ev.incarnation)
  {
    hide Run, Refusal;
    RunShort(s.disk, Ops(cfg, s, ev), ev.done);
    if ev.Claim? && Ops(cfg, s, ev) != [] {
      assert Queue(s.disk.entries)[0] in Queue(s.disk.entries);
    }
  }
}
