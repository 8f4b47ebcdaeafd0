/**
The worker loop and its wake-ups: clients change the queue under the mutex and
notify later; a notification is handed to a registered waiter or stored as one
permit. A mutation that fails notifies nobody, even if it had changed the queue.
*/
module WorkerWakeups {
  import opened Base
  import opened QueueOrder
  import opened Scheduling

  /** What a claim attempt decides. */
  datatype Decision = Nothing | WaitFor(seconds: U64) | Due

  predicate SomethingClaimed(q: Pending) {
    exists id :: id in q.entries && q.entries[id].claimToken.Some?
  }

  ghost function Decide(q: Pending, cooldown: U64, now: U64): Decision
    requires WellKeyed(q.entries)
  {
    if SomethingClaimed(q) || Queue(q.entries) == [] then Nothing
    else
      var wait := Eta(HeadTime(q, cooldown, now), now);
      if wait > 0 then WaitFor(wait) else Due
  }

  /**
  The decision by what it means: nothing exactly if something is claimed or
  nothing queued, due exactly if the head may be posted now, and otherwise the
  wait until the first moment at which it may.
  */
  lemma DecisionIsExact(q: Pending, cooldown: U64, now: U64)
    requires WellKeyed(q.entries)
    ensures
      var d := Decide(q, cooldown, now);
      && (d.Nothing? <==> SomethingClaimed(q) || q.entries == map[])
      && (d.Due? ==> Queue(q.entries) != [] && MayPost(q, cooldown, now, [], 0, now))
      && (d.WaitFor? ==>
        && d.seconds > 0 && Queue(q.entries) != [] && now + d.seconds <= U64_MAX
        && MayPost(q, cooldown, now, [], 0, now + d.seconds)
        && forall t: U64 :: now <= t < now + d.seconds ==> !MayPost(q, cooldown, now, [], 0, t))
  {
    var es := Queue(q.entries);
    assert forall id :: id in q.entries ==> q.entries[id] in es;
    if es == [] {
      assert q.entries == map[];
    } else {
      assert es[0] in es;
      DueIff(q, cooldown, now);
      ProjectedIsEarliest(q, cooldown, now, 0);
    }
  }

  /**
  Where the worker is: about to claim; past a claim attempt that found nothing
  due, not yet registered for changes; registered, and perhaps handed a
  notification it has not consumed; posting; waiting out a failed post; gone
  with an error, to be restarted by the supervisor; or shut down.
  */
  datatype Loop =
    | Busy
    | Leaving(saw: Pending, at: U64)
    | Waiting(saw: Pending, at: U64, handed: bool)
    | Posting
    | Retrying(deadline: U64, registered: bool, handed: bool)
    | Failed
    | Stopped

  /** `owed` counts mutators that changed the queue and have yet to notify. */
  datatype State = State(queue: Pending, clock: U64, owed: nat, permit: bool, loop: Loop)

  datatype Event =
    | Mutate(after: Pending)
    | Fail(after: Pending)
    | Notify
    | Tick(now: U64)
    | Claim(claimed: Pending)
    | Register
    | Wake
    | TimerFires
    | Finish(success: bool, after: Pending)
    | Listen
    | Swallow
    | DeadlinePasses
    | Die(after: Pending)
    | Restart(after: Pending)
    | Shutdown

  predicate Registered(loop: Loop) {
    (loop.Waiting? && !loop.handed) || (loop.Retrying? && loop.registered && !loop.handed)
  }

  ghost predicate Enabled(cooldown: U64, s: State, ev: Event) {
    && WellKeyed(s.queue.entries)
    && match ev
       case Mutate(after) => WellKeyed(after.entries)
       case Fail(after) => WellKeyed(after.entries)
       case Notify => s.owed > 0
       case Tick(now) => s.clock <= now
       case Claim(claimed) => s.loop.Busy? && WellKeyed(claimed.entries)
       case Register => s.loop.Leaving?
       case Wake => s.loop.Waiting? && s.loop.handed
       case TimerFires =>
         && s.loop.Waiting? && WellKeyed(s.loop.saw.entries)
         && var d := Decide(s.loop.saw, cooldown, s.loop.at);
            d.WaitFor? && s.clock >= s.loop.at + d.seconds
       case Finish(_, after) => s.loop.Posting? && WellKeyed(after.entries)
       case Listen => s.loop.Retrying? && !s.loop.registered && s.clock < s.loop.deadline
       case Swallow => s.loop.Retrying? && s.loop.registered && s.loop.handed
       case DeadlinePasses => s.loop.Retrying? && s.clock >= s.loop.deadline
       case Die(after) => (s.loop.Busy? || s.loop.Posting?) && WellKeyed(after.entries)
       case Restart(after) => s.loop.Failed? && WellKeyed(after.entries)
       case Shutdown => s.loop.Waiting? || s.loop.Retrying?
  }

  /** A registered waiter that goes away with an unconsumed notification passes it on. */
  function Dropped(s: State): State {
    if (s.loop.Waiting? || s.loop.Retrying?) && s.loop.handed then s.(permit := true) else s
  }

  ghost function Step(cooldown: U64, s: State, ev: Event): State
    requires Enabled(cooldown, s, ev)
  {
    match ev
    case Mutate(after) => s.(queue := after, owed := s.owed + 1)
    case Fail(after) => s.(queue := after)
    case Notify =>
      if Registered(s.loop) then s.(owed := s.owed - 1, loop := s.loop.(handed := true))
      else s.(owed := s.owed - 1, permit := true)
    case Tick(now) => s.(clock := now)
    case Claim(claimed) =>
      if Decide(s.queue, cooldown, s.clock).Due? then s.(queue := claimed, loop := Posting)
      else s.(loop := Leaving(s.queue, s.clock))
    case Register =>
      if s.permit then s.(permit := false, loop := Busy)
      else s.(loop := Waiting(s.loop.saw, s.loop.at, false))
    case Wake => s.(loop := Busy)
    case TimerFires => Dropped(s).(loop := Busy)
    case Finish(success, after) =>
      s.(queue := after, loop := if success then Busy else Retrying(SatAdd(s.clock, cooldown), false, false))
    case Listen =>
      if s.permit then s.(permit := false) else s.(loop := s.loop.(registered := true))
    case Swallow => s.(loop := s.loop.(registered := false, handed := false))
    case DeadlinePasses => Dropped(s).(loop := Busy)
    case Die(after) => s.(queue := after, loop := Failed)
    case Restart(after) => s.(queue := after, loop := Busy)
    case Shutdown => Dropped(s).(loop := Stopped)
  }

  predicate Saw(loop: Loop) {
    loop.Leaving? || loop.Waiting?
  }

  /** A parked worker will be woken: a permit is stored, a notification is in its hand, or a mutator has yet to notify. */
  predicate Announced(s: State) {
    s.owed > 0 || if s.loop.Waiting? then s.loop.handed else s.permit
  }

  /** The worker is parked on a queue that is no more, and nothing will tell it. */
  ghost predicate Stranded(s: State) {
    Saw(s.loop) && s.loop.saw != s.queue && !Announced(s)
  }

  /** What a parked worker saw was not due, and a registered waiter leaves no permit behind. */
  ghost predicate Inv(cooldown: U64, s: State) {
    && WellKeyed(s.queue.entries)
    && (Saw(s.loop) ==>
      && WellKeyed(s.loop.saw.entries) && s.loop.at <= s.clock
      && !Decide(s.loop.saw, cooldown, s.loop.at).Due?)
    && (Registered(s.loop) ==> !s.permit)
    && (s.loop.Retrying? ==> !s.loop.registered ==> !s.loop.handed)
  }

  lemma StepKeeps(cooldown: U64, s: State, ev: Event)
    requires Inv(cooldown, s) && Enabled(cooldown, s, ev)
    ensures Inv(cooldown, Step(cooldown, s, ev))
  {
    hide Decide, WellKeyed;
  }

  /** A mutation fails after changing the queue, while the worker is parked and nothing is announced. */
  ghost predicate Strands(s: State, ev: Event) {
    ev.Fail? && Saw(s.loop) && !Announced(s) && ev.after != s.loop.saw
  }

  /** A later change, the worker's own timer, the end of the worker, or the old queue again. */
  ghost predicate Rescues(s: State, ev: Event) {
    || ev.Mutate? || ev.TimerFires? || ev.Shutdown?
    || (ev.Fail? && Saw(s.loop) && ev.after == s.loop.saw)
  }

  /** One step strands the worker, or leaves it stranded, in exactly these cases. */
  lemma StrandedIff(cooldown: U64, s: State, ev: Event)
    requires Inv(cooldown, s) && Enabled(cooldown, s, ev)
    ensures Stranded(Step(cooldown, s, ev)) <==> Strands(s, ev) || (Stranded(s) && !Rescues(s, ev))
  {
    hide Decide, WellKeyed;
  }

  ghost predicate IsRun(cooldown: U64, s: State, evs: seq<Event>)
    decreases |evs|
  {
    evs == [] || (Enabled(cooldown, s, evs[0]) && IsRun(cooldown, Step(cooldown, s, evs[0]), evs[1..]))
  }

  ghost function Reached(cooldown: U64, s: State, evs: seq<Event>): State
    requires IsRun(cooldown, s, evs)
    decreases |evs|
  {
    if evs == [] then s else Reached(cooldown, Step(cooldown, s, evs[0]), evs[1..])
  }

  lemma {:induction false} RunKeeps(cooldown: U64, s: State, evs: seq<Event>)
    requires Inv(cooldown, s) && IsRun(cooldown, s, evs)
    ensures Inv(cooldown, Reached(cooldown, s, evs))
    decreases |evs|
  {
    hide Inv, Enabled, Step;
    if evs != [] {
      StepKeeps(cooldown, s, evs[0]);
      RunKeeps(cooldown, Step(cooldown, s, evs[0]), evs[1..]);
    }
  }

  /** Notifications that mutators owe, that the permit stores and that the worker holds. */
  function Outstanding(s: State): nat {
    s.owed + (if s.permit then 1 else 0) + (if (s.loop.Waiting? || s.loop.Retrying?) && s.loop.handed then 1 else 0)
  }

  /** The worker takes a notification, to look at the queue again or to wait on for its retry. */
  predicate Consumes(s: State, ev: Event) {
    ev.Wake? || ev.Swallow? || (s.permit && (ev.Register? || ev.Listen?))
  }

  /** A notification that nobody takes finds the permit set already, and the two become one. */
  predicate Merges(s: State, ev: Event) {
    && s.permit
    && ((ev.Notify? && !Registered(s.loop))
        || ((ev.TimerFires? || ev.DeadlinePasses? || ev.Shutdown?) && (s.loop.Waiting? || s.loop.Retrying?) && s.loop.handed))
  }

  /** Notifications come from published changes alone, and go only by being taken or merged. */
  lemma StepConserves(cooldown: U64, s: State, ev: Event)
    requires Enabled(cooldown, s, ev)
    ensures Outstanding(Step(cooldown, s, ev)) + (if Consumes(s, ev) then 1 else 0) + (if Merges(s, ev) then 1 else 0)
         == Outstanding(s) + (if ev.Mutate? then 1 else 0)
  {
    hide Decide, WellKeyed;
  }

  ghost function Consumed(cooldown: U64, s: State, evs: seq<Event>): nat
    requires IsRun(cooldown, s, evs)
    decreases |evs|
  {
    if evs == [] then 0
    else (if Consumes(s, evs[0]) then 1 else 0) + Consumed(cooldown, Step(cooldown, s, evs[0]), evs[1..])
  }

  function Published(evs: seq<Event>): nat {
    if evs == [] then 0 else (if evs[0].Mutate? then 1 else 0) + Published(evs[1..])
  }

  /** So the worker does not spin: over every run it is woken no more often than the queue was changed and announced. */
  lemma {:induction false} WakeupsArePaid(cooldown: U64, s: State, evs: seq<Event>)
    requires IsRun(cooldown, s, evs)
    ensures Consumed(cooldown, s, evs) + Outstanding(Reached(cooldown, s, evs)) <= Outstanding(s) + Published(evs)
    decreases |evs|
  {
    hide Enabled, Step, Outstanding, Consumes, Merges;
    if evs != [] {
      StepConserves(cooldown, s, evs[0]);
      WakeupsArePaid(cooldown, Step(cooldown, s, evs[0]), evs[1..]);
    }
  }

  /** The worker starts by claiming; earlier notifications may have left a permit. */
  ghost predicate Init(s: State) {
    s.loop.Busy? && WellKeyed(s.queue.entries)
  }

  /** Some mutation of the run stranded the worker, and nothing after it came to the rescue. */
  ghost predicate WakeupLost(cooldown: U64, s: State, evs: seq<Event>)
    requires IsRun(cooldown, s, evs)
    decreases |evs|
  {
    && evs != []
    && var s' := Step(cooldown, s, evs[0]);
       || WakeupLost(cooldown, s', evs[1..])
       || (Strands(s, evs[0]) && NoRescue(cooldown, s', evs[1..]))
  }

  ghost predicate NoRescue(cooldown: U64, s: State, evs: seq<Event>)
    requires IsRun(cooldown, s, evs)
    decreases |evs|
  {
    evs == [] || (!Rescues(s, evs[0]) && NoRescue(cooldown, Step(cooldown, s, evs[0]), evs[1..]))
  }

  lemma {:induction false} StrandedAfter(cooldown: U64, s: State, evs: seq<Event>)
    requires Inv(cooldown, s) && IsRun(cooldown, s, evs)
    ensures Stranded(Reached(cooldown, s, evs))
       <==> WakeupLost(cooldown, s, evs) || (Stranded(s) && NoRescue(cooldown, s, evs))
    decreases |evs|
  {
    hide Inv, Enabled, Step, Stranded, Strands, Rescues;
    if evs != [] {
      StepKeeps(cooldown, s, evs[0]);
      StrandedIff(cooldown, s, evs[0]);
      StrandedAfter(cooldown, Step(cooldown, s, evs[0]), evs[1..]);
    }
  }

  /**
  When a wake-up is lost, exactly: in every interleaving, a worker parked on an
  outdated queue has a permit stored, a notification in its hand or a mutator
  that has yet to notify, unless a mutation that failed after changing the queue
  found it parked with none of these and nothing has come to its rescue since.
  */
  lemma NoLostWakeup(cooldown: U64, s0: State, evs: seq<Event>)
    requires Init(s0) && IsRun(cooldown, s0, evs)
    ensures
      var s := Reached(cooldown, s0, evs);
      Saw(s.loop) && s.loop.saw != s.queue ==> (Announced(s) <==> !WakeupLost(cooldown, s0, evs))
    ensures WakeupLost(cooldown, s0, evs) ==> exists i :: 0 <= i < |evs| && evs[i].Fail?
  {
    hide Decide, WellKeyed, IsRun;
    StrandedAfter(cooldown, s0, evs);
    if WakeupLost(cooldown, s0, evs) {
      LostByFailure(cooldown, s0, evs);
    }
  }

  lemma {:induction false} LostByFailure(cooldown: U64, s: State, evs: seq<Event>)
    requires IsRun(cooldown, s, evs) && WakeupLost(cooldown, s, evs)
    ensures exists i :: 0 <= i < |evs| && evs[i].Fail?
    decreases |evs|
  {
    hide Enabled, Step;
    if !evs[0].Fail? {
      LostByFailure(cooldown, Step(cooldown, s, evs[0]), evs[1..]);
      var i :| 0 <= i < |evs[1..]| && evs[1..][i].Fail?;
      assert evs[i + 1].Fail?;
    }
  }

  /**
  Such a wake-up is lost: a put that fails after queueing its entry finds the
  worker parked on an empty queue. The entry is due, and the worker sleeps on
  until another mutation succeeds, however late it gets.
  */
  lemma FailedPutStrands(cooldown: U64, start: State, after: Pending, later: U64)
    requires Init(start) && start.queue.entries == map[] && !start.permit && start.owed == 0
    requires WellKeyed(after.entries) && Decide(after, cooldown, start.clock).Due? && start.clock <= later
    ensures
      var evs := [Claim(start.queue), Register, Fail(after), Tick(later)];
      && IsRun(cooldown, start, evs)
      && WakeupLost(cooldown, start, evs)
      && var s := Reached(cooldown, start, evs);
         && s.queue == after
         && forall ev :: Enabled(cooldown, s, ev) ==> ev.Mutate? || ev.Fail? || ev.Tick? || ev.Shutdown?
  {
    hide WellKeyed, Decide;
    var evs := [Claim(start.queue), Register, Fail(after), Tick(later)];
    EmptyQueue(start.queue, cooldown, start.clock);
    var s1 := Step(cooldown, start, evs[0]);
    var s2 := Step(cooldown, s1, Register);
    var s3 := Step(cooldown, s2, Fail(after));
    var s4 := Step(cooldown, s3, Tick(later));
    assert s4 == start.(queue := after, clock := later, loop := Waiting(start.queue, start.clock, false));
    assert after != start.queue;
    RunFirst(cooldown, s3, Tick(later), []);
    RunFirst(cooldown, s2, Fail(after), [Tick(later)]);
    RunFirst(cooldown, s1, Register, [Fail(after), Tick(later)]);
    RunFirst(cooldown, start, evs[0], [Register, Fail(after), Tick(later)]);
    assert [Tick(later)] + [] == [Tick(later)];
    assert [Fail(after)] + [Tick(later)] == [Fail(after), Tick(later)];
    assert [Register] + [Fail(after), Tick(later)] == [Register, Fail(after), Tick(later)];
    assert [evs[0]] + [Register, Fail(after), Tick(later)] == evs;
  }

  lemma RunFirst(cooldown: U64, s: State, ev: Event, rest: seq<Event>)
    requires Enabled(cooldown, s, ev) && IsRun(cooldown, Step(cooldown, s, ev), rest)
    ensures
      var s', evs := Step(cooldown, s, ev), [ev] + rest;
      && IsRun(cooldown, s, evs)
      && Reached(cooldown, s, evs) == Reached(cooldown, s', rest)
      && (NoRescue(cooldown, s, evs) <==> !Rescues(s, ev) && NoRescue(cooldown, s', rest))
      && (WakeupLost(cooldown, s, evs)
          <==> WakeupLost(cooldown, s', rest) || (Strands(s, ev) && NoRescue(cooldown, s', rest)))
  {
    hide Enabled, Step, Strands, Rescues;
    assert ([ev] + rest)[1..] == rest;
  }

  lemma EmptyQueue(q: Pending, cooldown: U64, now: U64)
    requires q.entries == map[]
    ensures WellKeyed(q.entries) && Decide(q, cooldown, now) == Nothing
  {
  }

  /** An entry found not due becomes due exactly when the wait it was found with is over. */
  lemma DueWhenWaited(q: Pending, cooldown: U64, at: U64, now: U64)
    requires WellKeyed(q.entries) && at <= now && !Decide(q, cooldown, at).Due?
    ensures
      var d := Decide(q, cooldown, at);
      Decide(q, cooldown, now).Due? <==> d.WaitFor? && now >= at + d.seconds
  {
  }

  /**
  A parked worker that nobody owes a notification, and that no failed mutation
  stranded, sleeps exactly as long as the current queue allows: from the claim
  attempt on, the head of the queue as it is now is due at a moment if and only
  if the worker's timer has run out.
  */
  lemma ParkedTimerIsRight(cooldown: U64, s0: State, evs: seq<Event>, now: U64)
    requires Init(s0) && IsRun(cooldown, s0, evs)
    requires
      var s := Reached(cooldown, s0, evs);
      s.loop.Waiting? && !s.loop.handed && s.owed == 0 && s.loop.at <= now
    requires !WakeupLost(cooldown, s0, evs)
    ensures
      var s := Reached(cooldown, s0, evs);
      && WellKeyed(s.queue.entries) && WellKeyed(s.loop.saw.entries)
      && var d := Decide(s.loop.saw, cooldown, s.loop.at);
         Decide(s.queue, cooldown, now).Due? <==> d.WaitFor? && now >= s.loop.at + d.seconds
  {
    hide Decide, WellKeyed, IsRun;
    RunKeeps(cooldown, s0, evs);
    NoLostWakeup(cooldown, s0, evs);
    var s := Reached(cooldown, s0, evs);
    DueWhenWaited(s.loop.saw, cooldown, s.loop.at, now);
  }

  /** A failed post is not followed by another claim before its deadline, whatever the queue's changes. */
  lemma {:induction false} RetryNeverEarly(cooldown: U64, s: State, evs: seq<Event>, deadline: U64)
    requires IsRun(cooldown, s, evs)
    requires (s.loop.Retrying? && s.loop.deadline == deadline) || s.clock >= deadline || s.loop.Stopped?
    ensures
      var s' := Reached(cooldown, s, evs);
      (s'.loop.Retrying? && s'.loop.deadline == deadline) || s'.clock >= deadline || s'.loop.Stopped?
    decreases |evs|
  {
    hide Decide, WellKeyed;
    if evs != [] {
      RetryNeverEarly(cooldown, Step(cooldown, s, evs[0]), evs[1..], deadline);
    }
  }

  /**
  A post that failed at second `t` is not followed by a claim before `t` plus the
  cooldown, whatever happens meanwhile and whatever fails after it.
  */
  lemma {:induction false} FailedPostWaits(cooldown: U64, s: State, after: Pending, evs: seq<Event>)
    requires Enabled(cooldown, s, Finish(false, after)) && IsRun(cooldown, Step(cooldown, s, Finish(false, after)), evs)
    ensures
      var s' := Reached(cooldown, Step(cooldown, s, Finish(false, after)), evs);
      && (s'.loop.Retrying? || s'.loop.Stopped? || s'.clock == U64_MAX || s'.clock >= s.clock + cooldown)
      && (forall claimed :: Enabled(cooldown, s', Claim(claimed)) ==> s'.clock == U64_MAX || s'.clock >= s.clock + cooldown)
  {
    hide IsRun, Reached, WellKeyed, Decide;
    RetryNeverEarly(cooldown, Step(cooldown, s, Finish(false, after)), evs, SatAdd(s.clock, cooldown));
  }

  /** Nor does the wait last longer: until the next post, it can end exactly from then on. */
  lemma {:induction false} FailedPostResumes(cooldown: U64, s: State, after: Pending, evs: seq<Event>)
    requires Enabled(cooldown, s, Finish(false, after)) && IsRun(cooldown, Step(cooldown, s, Finish(false, after)), evs)
    requires forall i :: 0 <= i < |evs| ==> !evs[i].Finish?
    ensures
      var s' := Reached(cooldown, Step(cooldown, s, Finish(false, after)), evs);
      s'.loop.Retrying? ==>
        (Enabled(cooldown, s', DeadlinePasses) <==> s'.clock == U64_MAX || s'.clock >= s.clock + cooldown)
  {
    hide IsRun, Reached, Decide, WellKeyed;
    var s1 := Step(cooldown, s, Finish(false, after));
    SameDeadline(cooldown, s1, evs, SatAdd(s.clock, cooldown));
    assert WellKeyed(Reached(cooldown, s1, evs).queue.entries) by { RunKeyed(cooldown, s1, evs); }
  }

  lemma {:induction false} SameDeadline(cooldown: U64, s: State, evs: seq<Event>, deadline: U64)
    requires IsRun(cooldown, s, evs) && (s.loop.Retrying? ==> s.loop.deadline == deadline)
    requires forall i :: 0 <= i < |evs| ==> !evs[i].Finish?
    ensures var s' := Reached(cooldown, s, evs); s'.loop.Retrying? ==> s'.loop.deadline == deadline
    decreases |evs|
  {
    hide Decide, WellKeyed;
    if evs != [] {
      SameDeadline(cooldown, Step(cooldown, s, evs[0]), evs[1..], deadline);
    }
  }

  lemma {:induction false} RunKeyed(cooldown: U64, s: State, evs: seq<Event>)
    requires IsRun(cooldown, s, evs) && WellKeyed(s.queue.entries)
    ensures WellKeyed(Reached(cooldown, s, evs).queue.entries)
    decreases |evs|
  {
    hide Decide, WellKeyed;
    if evs != [] {
      RunKeyed(cooldown, Step(cooldown, s, evs[0]), evs[1..]);
    }
  }

  /** What ends one pass of the retry wait. */
  datatype Wakeup = ShutdownBegan | Changed(at: U64) | Slept(at: U64)

  /** Time does not run back, and a sleep for the remaining time lasts at least that long. */
  predicate Plausible(start: U64, deadline: U64, wakeups: seq<Wakeup>)
    decreases |wakeups|
  {
    wakeups == [] ||
    match wakeups[0]
    case ShutdownBegan => true
    case Changed(at) => start <= at && Plausible(at, deadline, wakeups[1..])
    case Slept(at) => Max(start, deadline) <= at
  }

  datatype RetryEnd = StillWaiting | Stopping | Over(at: U64)

  /** Wait out a failed post: changes are consumed without ending the wait. */
  method WaitForRetryDeadline(start: U64, deadline: U64, wakeups: seq<Wakeup>) returns (end: RetryEnd)
    requires Plausible(start, deadline, wakeups)
    ensures end.Over? ==> end.at >= deadline
    ensures end.Stopping? ==> ShutdownBegan in wakeups
    ensures end.StillWaiting? ==> forall i :: 0 <= i < |wakeups| ==> wakeups[i].Changed? && wakeups[i].at < deadline
    ensures start >= deadline ==> end == Over(start)
  {
    var now: U64 := start;
    for i := 0 to |wakeups|
      invariant Plausible(now, deadline, wakeups[i..])
      invariant start >= deadline ==> i == 0 && now == start
      invariant forall k :: 0 <= k < i ==> wakeups[k].Changed? && (k < i - 1 ==> wakeups[k].at < deadline)
      invariant i > 0 ==> now == wakeups[i - 1].at
    {
      if now >= deadline {
        return Over(now);
      }
      assert wakeups[i..][1..] == wakeups[i + 1..];
      match wakeups[i] {
        case ShutdownBegan => return Stopping;
        case Changed(at) => now := at;
        case Slept(at) => return Over(at);
      }
    }
    return if now >= deadline then Over(now) else StillWaiting;
  }
}
