/** The worker's turn of the schedule, performed by the daemon's own claim and completion. */
module WorkerTurn {
  import opened Base
  import opened QueueOrder
  import opened Scheduling
  import opened Bounds
  import opened Disk
  import opened StoreSteps
  import opened Machine

  /** An idle worker and something to post, at a moment the clock has not passed. */
  ghost predicate Ready(cfg: Config, s: State, now: U64) {
    Reachable(cfg, s) && s.worker.Idle? && s.clock <= now && s.disk.entries != map[]
  }

  lemma ReadyFacts(cfg: Config, s: State, now: U64)
    requires Ready(cfg, s, now)
    ensures WellKeyed(s.disk.entries) && Queue(s.disk.entries) != [] && NothingClaimed(s.disk) && s.open && s.disk.journal == None
    ensures var head := Queue(s.disk.entries)[0]; head.id in s.disk.entries && s.disk.entries[head.id] == head
  {
    hide Admitted, Reachable, TimeInv;
    ReachableInv(cfg, s);
    AdmittedKeyed(cfg.fixed, s.disk.entries);
    var id :| id in s.disk.entries;
    assert s.disk.entries[id] in Queue(s.disk.entries);
    assert Queue(s.disk.entries)[0] in Queue(s.disk.entries);
  }

  /** Claiming is of no use before the head's projected time, and claims the head at any time from then on. */
  lemma ClaimsFrom(cfg: Config, s: State, now: U64, at: U64, token: string)
    requires Ready(cfg, s, now) && now <= at && WellKeyed(s.disk.entries)
    ensures Queue(s.disk.entries) != []
    ensures
      var head, t := Queue(s.disk.entries)[0], HeadTime(PendingOf(s.disk), cfg.cooldown, now);
      ClaimOps(s.disk, cfg.cooldown, at, token) == if at < t then [] else [PutEntry(head.(claimToken := Some(token)))]
  {
    hide Reachable, Queue;
    ReadyFacts(cfg, s, now);
  }

  /** A completion removes the entry it posted with its marker, records the second of the post, and leaves no journal. */
  lemma CompleteEffect(cfg: Config, s: State, ev: Event)
    requires Enabled(cfg, s, ev) && ev.Complete? && ev.ok && s.worker.entry.claimToken.Some?
    requires s.worker.entry.id in s.disk.entries && s.disk.entries[s.worker.entry.id] == s.worker.entry
    ensures
      var id, d' := s.worker.entry.id, Step(cfg, s, ev).disk;
      d' == Disk(s.disk.entries - {id}, s.disk.tombstones - {id}, Some(ev.now), s.disk.lastAttempt, None, d'.history)
  {
    hide Run, ReconcileOps;
    var j := CompletionJournal(s.disk, s.worker.entry, Success(s, ev));
    var journaled := s.disk.(journal := Some(j));
    var ops := ReconcileOps(cfg.codec, journaled);
    RunPrefixRest(s.disk, [SetJournal(j)], ops, 1 + |ops|);
    RunShort(s.disk, [SetJournal(j)], 1);
    ReconcileEffect(cfg.codec, journaled, |ops|);
    assert j.id !in s.disk.tombstones ==> s.disk.tombstones - {j.id} == s.disk.tombstones;
  }

  ghost function Completion(cfg: Config, s: State, at: U64, url: Option<string>, tokenHash: string, attemptId: string): Event
    requires WellKeyed(s.disk.entries)
  {
    Complete(at, url, tokenHash, attemptId, |Ops(cfg, s, Complete(at, url, tokenHash, attemptId, 0, true))|, true)
  }

  lemma PostedAtOnce(cfg: Config, s: State, e: StoredEntry, at: U64, url: Option<string>, tokenHash: string, attemptId: string)
    requires s.worker == Posting(e) && e.claimToken.Some? && WellKeyed(s.disk.entries) && s.clock <= at
    requires e.id in s.disk.entries && s.disk.entries[e.id] == e
    ensures
      var ev := Completion(cfg, s, at, url, tokenHash, attemptId);
      && Enabled(cfg, s, ev) && Step(cfg, s, ev).worker == Idle
      && PendingOf(Step(cfg, s, ev).disk) == Pending(s.disk.entries - {e.id}, Some(at), s.disk.lastAttempt)
  {
    hide Run, CompleteOps;
    CompleteEffect(cfg, s, Completion(cfg, s, at, url, tokenHash, attemptId));
  }

  /** What the claim leaves: the head, claimed, in the worker's hands. */
  lemma ClaimedHead(cfg: Config, s: State, now: U64, at: U64, token: string)
    requires Ready(cfg, s, now) && now <= at && NewUuid(s, token)
    requires WellKeyed(s.disk.entries) && Queue(s.disk.entries) != [] && HeadTime(PendingOf(s.disk), cfg.cooldown, now) <= at
    ensures
      var ev, e := Claim(at, token, 1, true), Queue(s.disk.entries)[0].(claimToken := Some(token));
      && Claims(cfg, s, ev)
      && Step(cfg, s, ev) == s.(disk := s.disk.(entries := s.disk.entries[e.id := e]), clock := at,
                                used := s.used + {token}, worker := Posting(e))
  {
    hide Reachable, Queue, HeadDue;
    ReadyFacts(cfg, s, now);
    ClaimsFrom(cfg, s, now, at, token);
    RunShort(s.disk, ClaimOps(s.disk, cfg.cooldown, at, token), 1);
  }

  /**
  One turn of the worker left alone is what the daemon does: in any reachable
  state with an idle worker it claims nothing before the head's projected time;
  at that time it claims the head, and completing it in the same second leaves
  exactly the queue the schedule goes on with, and the worker idle.
  */
  lemma {:induction false} TurnIsPostNext(cfg: Config, s: State, now: U64, token: string,
                                          url: Option<string>, tokenHash: string, attemptId: string)
    requires Ready(cfg, s, now) && NewUuid(s, token)
    ensures WellKeyed(s.disk.entries) && PostNext(PendingOf(s.disk), cfg.cooldown, now).Some?
    ensures
      var (t, rest) := PostNext(PendingOf(s.disk), cfg.cooldown, now).value;
      var claim := Claim(t, token, 1, true);
      && (forall at: U64 :: now <= at < t ==> ClaimOps(s.disk, cfg.cooldown, at, token) == [])
      && Claims(cfg, s, claim) && WellKeyed(Step(cfg, s, claim).disk.entries)
      && var s1 := Step(cfg, s, claim);
         var complete := Completion(cfg, s1, t, url, tokenHash, attemptId);
         && Enabled(cfg, s1, complete)
         && PendingOf(Step(cfg, s1, complete).disk) == rest && Step(cfg, s1, complete).worker == Idle
  {
    hide Ready, Queue, HeadDue, Claims, Enabled, Step, Ops, PostNext;
    ReadyFacts(cfg, s, now);
    var q, m := PendingOf(s.disk), s.disk.entries;
    PostNextHead(q, cfg.cooldown, now);
    var (t, rest) := PostNext(q, cfg.cooldown, now).value;
    forall at: U64 | now <= at < t ensures ClaimOps(s.disk, cfg.cooldown, at, token) == [] {
      ClaimsFrom(cfg, s, now, at, token);
    }
    ClaimedHead(cfg, s, now, t, token);
    var e := Queue(m)[0].(claimToken := Some(token));
    ClaimEnabled(cfg, s, Claim(t, token, 1, true));
    var s1 := Step(cfg, s, Claim(t, token, 1, true));
    assert WellKeyed(m[e.id := e]);
    PostedAtOnce(cfg, s1, e, t, url, tokenHash, attemptId);
    assert m[e.id := e] - {e.id} == m - {e.id};
  }

  lemma ClaimEnabled(cfg: Config, s: State, ev: Event)
    requires Claims(cfg, s, ev)
    ensures Enabled(cfg, s, ev)
  {
  }

  /** Tokens for so many claims: new, and all different. */
  ghost predicate Tokens(s: State, tokens: seq<string>) {
    && (forall i :: 0 <= i < |tokens| ==> NewUuid(s, tokens[i]))
    && (forall i, j :: 0 <= i < j < |tokens| ==> tokens[i] != tokens[j])
  }

  /** The `i`-th claim and completion of a run that alternates them, both at this time. */
  ghost predicate PostAtTurn(evs: seq<Event>, i: nat, t: U64) {
    && 2 * i + 1 < |evs|
    && evs[2 * i].Claim? && evs[2 * i].now == t && evs[2 * i].ok
    && evs[2 * i + 1].Complete? && evs[2 * i + 1].now == t && evs[2 * i + 1].ok
  }

  /** A claim and a completion at each of these times. */
  ghost predicate PostsAt(evs: seq<Event>, times: seq<U64>) {
    |evs| == 2 * |times| && forall i :: 0 <= i < |times| ==> PostAtTurn(evs, i, times[i])
  }

  lemma PostsFirst(claim: Event, complete: Event, t: U64, evs: seq<Event>, times: seq<U64>)
    requires claim.Claim? && claim.now == t && claim.ok && complete.Complete? && complete.now == t && complete.ok
    requires PostsAt(evs, times)
    ensures PostsAt([claim, complete] + evs, [t] + times)
  {
    var all := [claim, complete] + evs;
    forall i | 0 <= i < |[t] + times| ensures PostAtTurn(all, i, ([t] + times)[i]) {
      if i > 0 {
        assert PostAtTurn(evs, i - 1, times[i - 1]);
        assert all[2 * i] == evs[2 * (i - 1)] && all[2 * i + 1] == evs[2 * (i - 1) + 1];
      }
    }
  }

  lemma RunOfTwo(cfg: Config, s: State, a: Event, b: Event, evs: seq<Event>)
    requires Enabled(cfg, s, a) && Enabled(cfg, Step(cfg, s, a), b) && IsRun(cfg, Step(cfg, Step(cfg, s, a), b), evs)
    ensures IsRun(cfg, s, [a, b] + evs)
    ensures Reached(cfg, s, [a, b] + evs) == Reached(cfg, Step(cfg, Step(cfg, s, a), b), evs)
  {
    hide Enabled, Step;
    assert ([a, b] + evs)[1..] == [b] + evs && ([b] + evs)[1..] == evs;
  }

  /** The state after one turn. */
  lemma AfterTurn(cfg: Config, s: State, now: U64, token: string) returns (t: U64, claim: Event, complete: Event, s': State)
    requires Ready(cfg, s, now) && NewUuid(s, token)
    ensures WellKeyed(s.disk.entries)
    ensures claim.Claim? && claim.now == t && claim.ok && complete.Complete? && complete.now == t && complete.ok
    ensures Enabled(cfg, s, claim) && Enabled(cfg, Step(cfg, s, claim), complete) && s' == Step(cfg, Step(cfg, s, claim), complete)
    ensures PostNext(PendingOf(s.disk), cfg.cooldown, now) == Some((t, PendingOf(s'.disk)))
    ensures Reachable(cfg, s') && s'.worker.Idle? && s'.clock <= t && s'.used == s.used + {token}
  {
    hide Reachable, Enabled, Ops, PostNext, Run;
    TurnIsPostNext(cfg, s, now, token, None, "", "");
    t := PostNext(PendingOf(s.disk), cfg.cooldown, now).value.0;
    claim := Claim(t, token, 1, true);
    complete := Completion(cfg, Step(cfg, s, claim), t, None, "", "");
    s' := Step(cfg, Step(cfg, s, claim), complete);
    ClaimEnabled(cfg, s, claim);
    ReachableStep(cfg, s, claim);
    ReachableStep(cfg, Step(cfg, s, claim), complete);
  }

  /**
  What is projected is a run of the daemon: from any reachable state with an
  idle worker, left alone, it claims and completes the queued entries one after
  another at exactly the projected times, and then nothing is queued.
  */
  lemma {:induction false} ScheduleIsRun(cfg: Config, s: State, now: U64, tokens: seq<string>) returns (evs: seq<Event>)
    requires Reachable(cfg, s) && s.worker.Idle? && s.clock <= now
    requires Tokens(s, tokens) && |tokens| == |s.disk.entries|
    ensures WellKeyed(s.disk.entries)
    ensures PostsAt(evs, ScheduledTimes(PendingOf(s.disk), cfg.cooldown, now))
    ensures IsRun(cfg, s, evs) && Reached(cfg, s, evs).disk.entries == map[]
    decreases |tokens|
  {
    hide Reachable, Enabled, Step, PostNext, PostsAt, ScheduledTimes, Inv;
    assert WellKeyed(s.disk.entries) by { ReachableKeyed(cfg, s); }
    var q := PendingOf(s.disk);
    ProjectionIsExecuted(q, cfg.cooldown, now);
    if tokens == [] {
      evs := [];
      NothingScheduled(q, cfg.cooldown, now);
      PostsNothing();
    } else {
      var t, claim, complete, s' := AfterTurn(cfg, s, now, tokens[0]);
      var head := HeadOf(q, cfg.cooldown, now);
      assert |s'.disk.entries| == |tokens| - 1;
      var rest := ScheduleIsRun(cfg, s', t, tokens[1..]);
      ProjectionIsExecuted(PendingOf(s'.disk), cfg.cooldown, t);
      evs := [claim, complete] + rest;
      RunOfTwo(cfg, s, claim, complete, rest);
      PostsFirst(claim, complete, t, rest, ScheduledTimes(PendingOf(s'.disk), cfg.cooldown, t));
    }
  }

  lemma ReachableKeyed(cfg: Config, s: State)
    requires Reachable(cfg, s)
    ensures WellKeyed(s.disk.entries)
  {
    hide Admitted, QueueInv, TimeInv, Reachable;
    ReachableInv(cfg, s);
    AdmittedKeyed(cfg.fixed, s.disk.entries);
  }

  lemma NothingScheduled(q: Pending, cooldown: U64, now: U64)
    requires q.entries == map[]
    ensures WellKeyed(q.entries) && ScheduledTimes(q, cooldown, now) == []
  {
    QueueUnique(map[], []);
  }

  lemma PostsNothing()
    ensures PostsAt([], [])
  {
  }

  /** A turn posts the head, and leaves one entry less. */
  lemma HeadOf(q: Pending, cooldown: U64, now: U64) returns (head: StoredEntry)
    requires WellKeyed(q.entries) && PostNext(q, cooldown, now).Some?
    ensures head.id in q.entries && PostNext(q, cooldown, now).value.1.entries == q.entries - {head.id}
    ensures |q.entries - {head.id}| == |q.entries| - 1
  {
    head := Queue(q.entries)[0];
    assert head in Queue(q.entries);
    assert (q.entries - {head.id}).Keys == q.entries.Keys - {head.id};
  }
}
