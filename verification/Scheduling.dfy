/** The saturating projection, and the worker that executes it. */
module Scheduling {
  import opened Base
  import opened QueueOrder

  /** When the projection posts an entry after the previous activity. */
  function PostAt(e: StoredEntry, previous: Option<U64>, cooldown: U64, now: U64): U64 {
    var due := match previous
      case None => now
      case Some(p) => SatAdd(SatAdd(p, cooldown), e.flutterSeconds);
    Max(Max(due, e.notBefore), now)
  }

  /** The absolute posting times of `projected_schedule`. */
  function PostTimes(es: seq<StoredEntry>, previous: Option<U64>, cooldown: U64, now: U64): (ts: seq<U64>)
    ensures |ts| == |es|
  {
    if es == [] then [] else
    var t := PostAt(es[0], previous, cooldown, now);
    [t] + PostTimes(es[1..], Some(t), cooldown, now)
  }

  /** The reported estimate: seconds from now. */
  function Eta(t: U64, now: U64): U64 {
    SatSub(t, now)
  }

  function PreviousActivity(lastPost: Option<U64>, lastAttempt: Option<U64>): Option<U64> {
    match (lastPost, lastAttempt)
    case (None, a) => a
    case (p, None) => p
    case (Some(p), Some(a)) => Some(Max(p, a))
  }

  /** Everything `schedule` reads. */
  datatype Pending = Pending(entries: Entries, lastPost: Option<U64>, lastAttempt: Option<U64>)

  ghost function ScheduledTimes(q: Pending, cooldown: U64, now: U64): seq<U64>
    requires WellKeyed(q.entries)
  {
    PostTimes(Queue(q.entries), PreviousActivity(q.lastPost, q.lastAttempt), cooldown, now)
  }

  /** The head of the schedule, which is all `next_due` looks at. */
  ghost function HeadTime(q: Pending, cooldown: U64, now: U64): (t: U64)
    requires WellKeyed(q.entries) && Queue(q.entries) != []
    ensures t >= now
  {
    PostAt(Queue(q.entries)[0], PreviousActivity(q.lastPost, q.lastAttempt), cooldown, now)
  }

  /** One turn of the worker left alone: wait for the head's estimate, claim it, post it in no time, complete it. */
  ghost function PostNext(q: Pending, cooldown: U64, now: U64): (r: Option<(U64, Pending)>)
    requires WellKeyed(q.entries)
    ensures r.Some? ==> WellKeyed(r.value.1.entries) && |r.value.1.entries| < |q.entries|
  {
    var all := Queue(q.entries);
    if all == [] then None else
    assert all[0] in all;
    var wait := Eta(HeadTime(q, cooldown, now), now);
    var t: U64 := now + wait;
    if Eta(HeadTime(q, cooldown, t), t) > 0 then None
    else Some((t, Pending(q.entries - {all[0].id}, Some(t), q.lastAttempt)))
  }

  /** The worker's posting times when nothing else changes the queue. */
  ghost function Execute(q: Pending, cooldown: U64, now: U64): seq<U64>
    requires WellKeyed(q.entries)
    decreases |q.entries|
  {
    match PostNext(q, cooldown, now)
    case None => []
    case Some((t, rest)) => [t] + Execute(rest, cooldown, t)
  }

  lemma {:induction false} TimesFromLater(es: seq<StoredEntry>, previous: U64, cooldown: U64, now: U64)
    requires now <= previous
    ensures PostTimes(es, Some(previous), cooldown, now) == PostTimes(es, Some(previous), cooldown, previous)
  {
    if es != [] {
      var t := PostAt(es[0], Some(previous), cooldown, now);
      TimesFromLater(es[1..], t, cooldown, now);
      TimesFromLater(es[1..], t, cooldown, previous);
    }
  }

  lemma DueOnceWaited(e: StoredEntry, previous: Option<U64>, cooldown: U64, now: U64)
    ensures
      var t := PostAt(e, previous, cooldown, now);
      && now <= t && now + Eta(t, now) == t
      && PostAt(e, previous, cooldown, t) == t && Eta(t, t) == 0
  {
  }

  /** Waiting for the head's estimate makes it due, at its projected time. */
  lemma PostNextHead(q: Pending, cooldown: U64, now: U64)
    requires WellKeyed(q.entries) && Queue(q.entries) != []
    ensures
      var head := Queue(q.entries)[0];
      var t := PostAt(head, PreviousActivity(q.lastPost, q.lastAttempt), cooldown, now);
      PostNext(q, cooldown, now) == Some((t, Pending(q.entries - {head.id}, Some(t), q.lastAttempt)))
  {
    DueOnceWaited(Queue(q.entries)[0], PreviousActivity(q.lastPost, q.lastAttempt), cooldown, now);
  }

  /** The worker posts the i-th entry at exactly the time projected for it at the start. */
  lemma {:induction false} ProjectionIsExecuted(q: Pending, cooldown: U64, now: U64)
    requires WellKeyed(q.entries)
    ensures Execute(q, cooldown, now) == ScheduledTimes(q, cooldown, now)
    decreases |q.entries|
  {
    var all := Queue(q.entries);
    if all != [] {
      assert all[0] in all;
      var t := PostAt(all[0], PreviousActivity(q.lastPost, q.lastAttempt), cooldown, now);
      var rest := Pending(q.entries - {all[0].id}, Some(t), q.lastAttempt);
      PostNextHead(q, cooldown, now);
      HeadRemoved(q.entries);
      assert PreviousActivity(rest.lastPost, rest.lastAttempt) == Some(t);
      ProjectionIsExecuted(rest, cooldown, t);
      TimesFromLater(all[1..], t, cooldown, now);
    }
  }

  lemma HeadRemoved(m: Entries)
    requires WellKeyed(m) && Queue(m) != []
    ensures Queue(m - {Queue(m)[0].id}) == Queue(m)[1..]
  {
    var all := Queue(m);
    DeleteIsRemove(m, all[0].id);
    forall x | x in all[1..] ensures x.id != all[0].id {
      assert x in all && all[0] in all;
      TailMembers(all);
    }
    WithoutAbsent(all[1..], all[0].id);
  }

  /** An earlier anchor never makes anything later. */
  predicate NoLater(p: Option<U64>, q: Option<U64>) {
    p == None || (q.Some? && p.value <= q.value)
  }

  /** The projected time of one entry of a queue, if it is there. */
  function TimeOf(es: seq<StoredEntry>, previous: Option<U64>, cooldown: U64, now: U64, id: string): Option<U64> {
    if es == [] then None else
    var t := PostAt(es[0], previous, cooldown, now);
    if es[0].id == id then Some(t) else TimeOf(es[1..], Some(t), cooldown, now, id)
  }

  /** What `list` projects for one identifier. */
  ghost function ListedTime(q: Pending, cooldown: U64, now: U64, id: string): Option<U64>
    requires WellKeyed(q.entries)
  {
    TimeOf(Queue(q.entries), PreviousActivity(q.lastPost, q.lastAttempt), cooldown, now, id)
  }

  lemma {:induction false} TimeOfMonotone(es: seq<StoredEntry>, p: Option<U64>, q: Option<U64>, cooldown: U64,
                                          now: U64, id: string)
    requires NoLater(p, q)
    ensures TimeOf(es, p, cooldown, now, id).Some? <==> TimeOf(es, q, cooldown, now, id).Some?
    ensures NoLater(TimeOf(es, p, cooldown, now, id), TimeOf(es, q, cooldown, now, id))
  {
    if es != [] && es[0].id != id {
      TimeOfMonotone(es[1..], Some(PostAt(es[0], p, cooldown, now)), Some(PostAt(es[0], q, cooldown, now)), cooldown, now, id);
    }
  }

  /** Removing an entry anywhere in the queue delays no other entry. */
  lemma {:induction false} RemovalDelaysNothing(es: seq<StoredEntry>, p: Option<U64>, q: Option<U64>, cooldown: U64,
                                                now: U64, gone: string, id: string)
    requires NoLater(p, q) && id != gone
    ensures TimeOf(Without(es, gone), p, cooldown, now, id).Some? <==> TimeOf(es, q, cooldown, now, id).Some?
    ensures NoLater(TimeOf(Without(es, gone), p, cooldown, now, id), TimeOf(es, q, cooldown, now, id))
  {
    if es != [] {
      var late := PostAt(es[0], q, cooldown, now);
      if es[0].id == gone {
        assert Without(es, gone) == Without(es[1..], gone);
        RemovalDelaysNothing(es[1..], p, Some(late), cooldown, now, gone, id);
      } else {
        var kept := Without(es, gone);
        assert kept[0] == es[0] && kept[1..] == Without(es[1..], gone);
        if es[0].id != id {
          RemovalDelaysNothing(es[1..], Some(PostAt(es[0], p, cooldown, now)), Some(late), cooldown, now, gone, id);
        }
      }
    }
  }

  /** `del` delays no entry that stays queued. */
  lemma DeleteDelaysNothing(q: Pending, cooldown: U64, now: U64, gone: string, id: string)
    requires WellKeyed(q.entries) && id != gone
    ensures
      var after := q.(entries := q.entries - {gone});
      && (ListedTime(after, cooldown, now, id).Some? <==> ListedTime(q, cooldown, now, id).Some?)
      && NoLater(ListedTime(after, cooldown, now, id), ListedTime(q, cooldown, now, id))
  {
    DeleteIsRemove(q.entries, gone);
    var previous := PreviousActivity(q.lastPost, q.lastAttempt);
    RemovalDelaysNothing(Queue(q.entries), previous, previous, cooldown, now, gone, id);
  }

  lemma {:induction false} TimeOfAppend(es: seq<StoredEntry>, e: StoredEntry, previous: Option<U64>, cooldown: U64,
                                        now: U64, id: string)
    requires forall x :: x in es ==> x.id != e.id
    ensures id != e.id ==> TimeOf(es + [e], previous, cooldown, now, id) == TimeOf(es, previous, cooldown, now, id)
    ensures TimeOf(es + [e], previous, cooldown, now, e.id).Some?
  {
    if es == [] {
      assert es + [e] == [e];
    } else {
      assert (es + [e])[1..] == es[1..] + [e];
      TimeOfAppend(es[1..], e, Some(PostAt(es[0], previous, cooldown, now)), cooldown, now, id);
    }
  }

  /**
  `put` changes no other estimate, and the estimate it reports, computed with
  the new entry pushed behind the queue it read, is the one `list` gives next.
  */
  lemma PutKeepsSchedule(q: Pending, cooldown: U64, now: U64, e: StoredEntry, id: string)
    requires WellKeyed(q.entries) && e.id !in q.entries
    requires e.order == TailOrder(Queue(q.entries))
    requires
      var all := Queue(q.entries);
      all == [] || all[|all| - 1].order < I64_MAX || TieBefore(all[|all| - 1], e)
    ensures
      var after := q.(entries := q.entries[e.id := e]);
      && WellKeyed(after.entries)
      && (id != e.id ==> ListedTime(after, cooldown, now, id) == ListedTime(q, cooldown, now, id))
      && ListedTime(after, cooldown, now, e.id).Some?
      && ListedTime(after, cooldown, now, e.id)
         == TimeOf(Queue(q.entries) + [e], PreviousActivity(q.lastPost, q.lastAttempt), cooldown, now, e.id)
  {
    PutIsAppend(q.entries, e);
    TimeOfAppend(Queue(q.entries), e, PreviousActivity(q.lastPost, q.lastAttempt), cooldown, now, id);
  }

  /** A due head was claimed no earlier than any past activity plus cooldown plus flutter, nor its floor. */
  lemma DueRespectsCooldown(e: StoredEntry, lastPost: Option<U64>, lastAttempt: Option<U64>, cooldown: U64, now: U64,
                            activity: U64)
    requires Eta(PostAt(e, PreviousActivity(lastPost, lastAttempt), cooldown, now), now) == 0
    requires (lastPost.Some? && activity <= lastPost.value) || (lastAttempt.Some? && activity <= lastAttempt.value)
    ensures now >= SatAdd(SatAdd(activity, cooldown), e.flutterSeconds)
    ensures now >= e.notBefore
  {
  }

  // The schedule by what it has to wait for.

  /** A moment past an activity, the cooldown and the entry's flutter; sums end with the clock. */
  predicate Past(activity: Option<U64>, cooldown: U64, e: StoredEntry, t: U64) {
    activity.Some? ==> t == U64_MAX || t >= activity.value + cooldown + e.flutterSeconds
  }

  /** The moments at which the `i`-th entry may be posted, given the times of those before it. */
  ghost predicate MayPost(q: Pending, cooldown: U64, now: U64, ts: seq<U64>, i: nat, t: U64)
    requires WellKeyed(q.entries) && i < |Queue(q.entries)| && i <= |ts|
  {
    var e := Queue(q.entries)[i];
    && t >= now && t >= e.notBefore
    && if i == 0 then Past(q.lastPost, cooldown, e, t) && Past(q.lastAttempt, cooldown, e, t)
       else Past(Some(ts[i - 1]), cooldown, e, t)
  }

  /**
  Every entry is projected for the earliest moment it may be posted at: not
  before now, its own floor, and the activity before it plus cooldown plus
  flutter. For the head that activity is the last post and the last attempt.
  Its estimate counts the seconds until then.
  */
  lemma {:induction false} ProjectedIsEarliest(q: Pending, cooldown: U64, now: U64, i: nat)
    requires WellKeyed(q.entries) && i < |Queue(q.entries)|
    ensures
      var ts := ScheduledTimes(q, cooldown, now);
      && |ts| == |Queue(q.entries)|
      && MayPost(q, cooldown, now, ts, i, ts[i])
      && (forall t: U64 :: MayPost(q, cooldown, now, ts, i, t) ==> ts[i] <= t)
      && now + Eta(ts[i], now) == ts[i]
  {
    hide Queue;
    var es, previous := Queue(q.entries), PreviousActivity(q.lastPost, q.lastAttempt);
    TimesChain(es, previous, cooldown, now, i);
  }

  /** The head is due exactly if now is such a moment. */
  lemma DueIff(q: Pending, cooldown: U64, now: U64)
    requires WellKeyed(q.entries) && Queue(q.entries) != []
    ensures Eta(HeadTime(q, cooldown, now), now) == 0 <==> MayPost(q, cooldown, now, [], 0, now)
  {
    hide Queue;
  }

  lemma {:induction false} TimesChain(es: seq<StoredEntry>, previous: Option<U64>, cooldown: U64, now: U64, i: nat)
    requires i < |es|
    ensures
      var ts := PostTimes(es, previous, cooldown, now);
      ts[i] == PostAt(es[i], if i == 0 then previous else Some(ts[i - 1]), cooldown, now)
    decreases |es|
  {
    if i > 0 {
      TimesChain(es[1..], Some(PostAt(es[0], previous, cooldown, now)), cooldown, now, i - 1);
    }
  }

  /** And that is what `list` gives for its identifier. */
  lemma {:induction false} ListedIsProjected(q: Pending, cooldown: U64, now: U64, i: nat)
    requires WellKeyed(q.entries) && i < |Queue(q.entries)|
    ensures ListedTime(q, cooldown, now, Queue(q.entries)[i].id) == Some(ScheduledTimes(q, cooldown, now)[i])
  {
    var es := Queue(q.entries);
    forall j | 0 <= j < |es| ensures es[j].id in q.entries && q.entries[es[j].id] == es[j] {
      assert es[j] in es;
    }
    forall j, k | 0 <= j < k < |es| ensures es[j].id != es[k].id {
      BeforeTotal(es[j], es[j]);
    }
    TimeAt(es, PreviousActivity(q.lastPost, q.lastAttempt), cooldown, now, i);
  }

  lemma {:induction false} TimeAt(es: seq<StoredEntry>, previous: Option<U64>, cooldown: U64, now: U64, i: nat)
    requires i < |es| && forall j, k :: 0 <= j < k < |es| ==> es[j].id != es[k].id
    ensures TimeOf(es, previous, cooldown, now, es[i].id) == Some(PostTimes(es, previous, cooldown, now)[i])
    decreases |es|
  {
    if i > 0 {
      TimeAt(es[1..], Some(PostAt(es[0], previous, cooldown, now)), cooldown, now, i - 1);
    }
  }
}
