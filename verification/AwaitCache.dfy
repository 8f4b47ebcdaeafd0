/** The locked queue state: it publishes mutations and caches one projection for all waiters. */
module AwaitCache {
  import opened Base
  import opened ReverseScan
  import opened QueueOrder
  import opened Scheduling
  import opened Disk
  import opened AwaitLookup
  import opened AwaitWorld
  import Store
  import StoreSteps

  /** One projection, shared by all waiters for a version and a clock second. */
  datatype AwaitSchedule = AwaitSchedule(builtAt: U64, etas: map<string, U64>)

  /** What a fresh `list` gives for an identifier at that second. */
  ghost function ListedEta(q: Pending, cooldown: U64, now: U64, id: string): Option<U64>
    requires WellKeyed(q.entries)
  {
    Store.EtaOf(ListedTime(q, cooldown, now, id), now)
  }

  /** The projection holds every queued identifier with its listed estimate, and nothing else. */
  ghost predicate Exact(s: AwaitSchedule, q: Pending, cooldown: U64)
    requires WellKeyed(q.entries)
  {
    && s.etas.Keys == q.entries.Keys
    && forall id :: id in q.entries ==> ListedEta(q, cooldown, s.builtAt, id) == Some(s.etas[id])
  }

  /** The operations whose success is published. */
  predicate IsStateMutation(operation: string) {
    operation in {"put", "bump", "bust", "del", "claim_next_due", "complete", "release_claim", "recover_worker_state"}
  }

  /** Work done under the mutex: the directory it leaves, and whether it succeeded. */
  type Work = Disk -> (Disk, bool)

  /** The answer of a locked lookup with a freshly listed estimate. */
  ghost function FreshAnswer(d: Disk, cooldown: U64, id: string, cursor: Option<AwaitCursor>, now: U64): Option<(AwaitState, U64)>
    requires WellKeyed(d.entries)
  {
    var pending := PendingLookup(d, id, cursor);
    if pending.None? then None else
    match ListedEta(PendingOf(d), cooldown, now, id)
    case None => Some((pending.value, 0))
    case Some(eta) => Some((pending.value, eta))
  }

  lemma {:induction false} EtaBuilt(es: seq<StoredEntry>, previous: Option<U64>, cooldown: U64, now: U64, i: nat)
    requires i < |es| && forall k :: 0 <= k < i ==> es[k].id != es[i].id
    ensures TimeOf(es, previous, cooldown, now, es[i].id) == Some(PostTimes(es, previous, cooldown, now)[i])
    decreases i
  {
    if i > 0 {
      var t := PostAt(es[0], previous, cooldown, now);
      assert es[1..][i - 1] == es[i];
      EtaBuilt(es[1..], Some(t), cooldown, now, i - 1);
      assert PostTimes(es, previous, cooldown, now)[i] == PostTimes(es[1..], Some(t), cooldown, now)[i - 1];
    }
  }

  /** Collect a schedule into a map by identifier. */
  method CollectEtas(es: seq<StoredEntry>, times: seq<U64>, now: U64) returns (etas: map<string, U64>)
    requires |times| == |es| && forall i, j :: 0 <= i < j < |es| ==> es[i].id != es[j].id
    ensures forall id :: id in etas <==> exists k :: 0 <= k < |es| && es[k].id == id
    ensures forall k :: 0 <= k < |es| ==> etas[es[k].id] == Eta(times[k], now)
  {
    etas := map[];
    for i := 0 to |es|
      invariant forall id :: id in etas <==> exists k :: 0 <= k < i && es[k].id == id
      invariant forall k :: 0 <= k < i ==> etas[es[k].id] == Eta(times[k], now)
    {
      etas := etas[es[i].id := Eta(times[i], now)];
    }
  }

  lemma {:induction false} CollectedExact(q: Pending, cooldown: U64, s: AwaitSchedule)
    requires WellKeyed(q.entries)
    requires
      var es := Queue(q.entries);
      var times := PostTimes(es, PreviousActivity(q.lastPost, q.lastAttempt), cooldown, s.builtAt);
      && (forall id :: id in s.etas <==> exists k :: 0 <= k < |es| && es[k].id == id)
      && (forall k :: 0 <= k < |es| ==> s.etas[es[k].id] == Eta(times[k], s.builtAt))
    ensures Exact(s, q, cooldown)
  {
    hide PostTimes, Queue, TimeOf;
    var es, previous := Queue(q.entries), PreviousActivity(q.lastPost, q.lastAttempt);
    Listing(q.entries);
    forall id | id in q.entries ensures ListedEta(q, cooldown, s.builtAt, id) == Some(s.etas[id]) {
      var k :| 0 <= k < |es| && es[k].id == id;
      EtaBuilt(es, previous, cooldown, s.builtAt, k);
    }
  }

  class QueueState {
    const cooldown: U64
    var disk: Disk
    var awaitSchedule: Option<AwaitSchedule>
    var stateVersion: nat

    constructor (cooldown: U64, d: Disk)
      requires WellKeyed(d.entries)
      ensures Valid() && this.cooldown == cooldown && disk == d && stateVersion == 0
    {
      this.cooldown, disk, awaitSchedule, stateVersion := cooldown, d, None, 0;
    }

    ghost predicate Valid()
      reads this
    {
      && WellKeyed(disk.entries)
      && (awaitSchedule.Some? ==> Exact(awaitSchedule.value, PendingOf(disk), cooldown))
    }

    /**
    Run locked work; a successful mutation drops the cached projection and
    advances the version, and nothing else touches either.
    */
    method WithState(operation: string, work: Work) returns (ok: bool)
      requires Valid() && WellKeyed(work(disk).0.entries)
      modifies this
      ensures (disk, ok) == work(old(disk))
      ensures stateVersion == if ok && IsStateMutation(operation) then (old(stateVersion) + 1) % VERSIONS else old(stateVersion)
      ensures awaitSchedule == if ok && IsStateMutation(operation) then None else old(awaitSchedule)
      ensures Valid() <==>
        || (ok && IsStateMutation(operation)) || old(awaitSchedule).None?
        || Exact(old(awaitSchedule).value, PendingOf(disk), cooldown)
    {
      var result := work(disk);
      disk, ok := result.0, result.1;
      if ok && IsStateMutation(operation) {
        awaitSchedule := None;
        stateVersion := (stateVersion + 1) % VERSIONS;
      }
    }

    /** Project the whole queue for one second. */
    method BuildSchedule(now: U64) returns (s: AwaitSchedule)
      requires WellKeyed(disk.entries)
      ensures s.builtAt == now && Exact(s, PendingOf(disk), cooldown)
    {
      hide PostTimes, Queue, Exact;
      var dir := Store.ListDirectory(disk.entries);
      var es := Store.SortEntries(dir, disk.entries);
      var times := PostTimes(es, PreviousActivity(disk.lastPost, disk.lastAttempt), cooldown, now);
      Listing(disk.entries);
      var etas := CollectEtas(es, times, now);
      s := AwaitSchedule(now, etas);
      CollectedExact(PendingOf(disk), cooldown, s);
    }

    /** The cached estimate, refreshed when it is missing or of another second. */
    method CachedEta(id: string, now: U64) returns (eta: U64)
      requires Valid() && id in disk.entries
      modifies this`awaitSchedule
      ensures Valid() && Some(eta) == ListedEta(PendingOf(disk), cooldown, now, id)
    {
      if awaitSchedule.None? || awaitSchedule.value.builtAt != now {
        var built := BuildSchedule(now);
        awaitSchedule := Some(built);
      }
      var etas := awaitSchedule.value.etas;
      eta := if id in etas then etas[id] else 0;
    }

    /** Resolve only the selected pending lifetime, with its estimate. */
    method ResolvePending(id: string, cursor: Option<AwaitCursor>, now: U64) returns (r: Option<(AwaitState, U64)>)
      requires Valid()
      modifies this`awaitSchedule
      ensures Valid()
      ensures r == FreshAnswer(disk, cooldown, id, cursor, now)
      ensures r.Some? ==> ListedEta(PendingOf(disk), cooldown, now, id).Some?
    {
      hide Exact, ListedEta;
      var pending := PendingLookup(disk, id, cursor);
      if pending.None? {
        return None;
      }
      var eta := CachedEta(id, now);
      return Some((pending.value, eta));
    }
  }

  lemma Listing(m: Entries)
    requires WellKeyed(m)
    ensures forall i, j :: 0 <= i < j < |Queue(m)| ==> Queue(m)[i].id != Queue(m)[j].id
    ensures forall i :: 0 <= i < |Queue(m)| ==> Queue(m)[i].id in m
    ensures forall id :: id in m ==> exists i :: 0 <= i < |Queue(m)| && Queue(m)[i].id == id
  {
    StoreSteps.QueueStands(m);
  }

  /**
  The condition is needed: releasing a claim that records the attempt and then
  fails to rewrite the entry reports failure, so the cached estimate stays
  although a fresh listing now adds the cooldown.
  */
  lemma StaleAfterFailedRelease(d: Disk, e: StoredEntry, token: string, cooldown: U64, now: U64)
    requires d.entries == map[e.id := e] && e.claimToken == Some(token)
    requires d.lastPost == None == d.lastAttempt && e.notBefore <= now
    requires 0 < cooldown && now + cooldown <= U64_MAX
    ensures
      var failed := Run(d, ReleaseOps(d, e.id, token, now)[..1]);
      var cached := AwaitSchedule(now, map[e.id := 0]);
      && WellKeyed(failed.entries)
      && Exact(cached, PendingOf(d), cooldown)
      && !Exact(cached, PendingOf(failed), cooldown)
  {
    var ops := ReleaseOps(d, e.id, token, now);
    RunPair(d, ops[0], ops[1], 1);
    assert ops == [ops[0], ops[1]];
    OnlyEntry(e);
    assert ListedEta(PendingOf(d), cooldown, now, e.id) == Some(0);
    var failed := Run(d, ops[..1]);
    assert e.id in failed.entries && ListedEta(PendingOf(failed), cooldown, now, e.id) != Some(0);
  }

  lemma OnlyEntry(e: StoredEntry)
    ensures WellKeyed(map[e.id := e]) && Queue(map[e.id := e]) == [e]
  {
    QueueUnique(map[e.id := e], [e]);
  }
}
