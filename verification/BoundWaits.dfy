/** What a wait bound to one lifetime is told, however its identifier is reused meanwhile. */
module BoundWaits {
  import opened Base
  import opened HistoryLog
  import opened ReverseScan
  import opened QueueOrder
  import opened Bounds
  import opened Disk
  import opened Recovery
  import opened LogAppend
  import opened NewestRecord
  import opened StoreSteps
  import opened Machine
  import opened Lineage
  import opened Lifetimes
  import L = AwaitLookup

  function NewestBound(c: Codec, log: seq<byte>, id: string, cursor: AwaitCursor): Option<HistoryRecord>
    requires cursor.offset <= |log|
  {
    Newest(Records(Reverse(c), log, cursor.offset), id, Some(cursor))
  }

  /** The lifetime belongs to this identifier only, wherever it is still known. */
  ghost predicate Belongs(s: State, id: string, incarnation: string) {
    && incarnation in s.used && incarnation != ""
    && (forall k :: k in s.disk.entries && s.disk.entries[k].incarnation == incarnation ==> k == id)
    && (s.worker.Posting? && s.worker.entry.incarnation == incarnation ==> s.worker.entry.id == id)
  }

  /** A failed completion of this lifetime awaits its recovery. */
  predicate Reconciling(d: Disk, incarnation: string) {
    d.journal.Some? && d.journal.value.history.Some? && d.journal.value.history.value.incarnation == incarnation
  }

  /** The log holds the journaled record already. */
  predicate Present(c: Codec, log: seq<byte>, j: Journal) {
    j.historyOffset.Some? && j.historyOffset.value <= |log| && Records(Forward(c), log, j.historyOffset.value) != []
  }

  /** Since the cursor was taken, history holds this lifetime's success exactly if it was posted, or is about to. */
  ghost predicate LogTells(c: Codec, d: Disk, posted: map<string, HistoryRecord>, id: string, cursor: AwaitCursor) {
    && cursor.offset <= |d.history|
    && var newest := NewestBound(c, d.history, id, cursor);
       if Reconciling(d, cursor.incarnation) then
         var j := d.journal.value;
         && j.id == id && cursor.incarnation in posted && posted[cursor.incarnation] == j.history.value
         && j.historyOffset.Some? && j.historyOffset.value <= |d.history|
         && newest == if Present(c, d.history, j) then j.history else None
       else newest == if cursor.incarnation in posted then Some(posted[cursor.incarnation]) else None
  }

  ghost predicate Awaited(c: Codec, x: Chronicle, id: string, cursor: AwaitCursor) {
    Belongs(x.state, id, cursor.incarnation) && LogTells(c, x.state.disk, x.posted, id, cursor)
  }

  /** The one state in which binding a wait loses its success: recorded already, and the entry still queued. */
  predicate BoundBehind(c: Codec, d: Disk, incarnation: string) {
    Reconciling(d, incarnation) && Present(c, d.history, d.journal.value)
  }

  /** The answer that binds a wait. */
  lemma AwaitedAtFirst(cfg: Config, x: Chronicle, id: string)
    requires Chronicled(cfg, x) && x.state.open && id in x.state.disk.entries
    requires !BoundBehind(cfg.codec, x.state.disk, x.state.disk.entries[id].incarnation)
    ensures Awaited(cfg.codec, x, id, AwaitCursor(|x.state.disk.history|, x.state.disk.entries[id].incarnation))
  {
    hide Admitted, Facts, TimeInv, Lawful, Records;
    RecordsFirst(Reverse(cfg.codec), x.state.disk.history, |x.state.disk.history|);
    if Reconciling(x.state.disk, x.state.disk.entries[id].incarnation) {
      ReconcilingFacts(cfg, x, id);
    }
  }

  /** A queued entry whose completion is journaled is the claimed one the journal names. */
  lemma ReconcilingFacts(cfg: Config, x: Chronicle, id: string)
    requires Chronicled(cfg, x) && id in x.state.disk.entries
    requires Reconciling(x.state.disk, x.state.disk.entries[id].incarnation)
    ensures
      var d := x.state.disk;
      var j := d.journal.value;
      && j.id == id && d.entries[id].claimToken.Some? && d.entries[id].claimToken == j.claimToken
      && d.entries[id].incarnation in x.posted && x.posted[d.entries[id].incarnation] == j.history.value
      && InProgress(cfg.codec, d, j)
  {
    hide Admitted, TimeInv, Lawful, InProgress, Lives, Marks;
  }

  // The lifetime stays with its identifier.

  lemma BelongsKept(cfg: Config, x: Chronicle, ev: Event, id: string, incarnation: string)
    requires Inv(cfg, x.state) && Enabled(cfg, x.state, ev) && !ev.Crash?
    requires x.state.open && Belongs(x.state, id, incarnation)
    ensures Belongs(After(cfg, x, ev).state, id, incarnation)
  {
    hide Inv, Run, Refusal;
    var s := x.state;
    assert After(cfg, x, ev).state == Step(cfg, s, ev);
    match ev
    case Die =>
    case Restart(_, _, _) => RestartLives(cfg, s, ev);
    case Complete(_, _, _, _, _, _) => CompleteLives(cfg, s, ev);
    case Claim(_, _, _, _) =>
      RunShort(s.disk, Ops(cfg, s, ev), ev.done);
      if Ops(cfg, s, ev) != [] {
        assert Queue(s.disk.entries)[0] in Queue(s.disk.entries);
      }
    case Put(_, _, _, _, _, _, _, _) => RunShort(s.disk, Ops(cfg, s, ev), ev.done);
    case Record(_, _, _, _, _, _) => RecordLives(cfg, s, ev);
    case Release(_, _, _) => ShortLives(cfg, s, ev);
    case Bump(_, _, _) => ShortLives(cfg, s, ev);
    case Bust(_, _, _) => ShortLives(cfg, s, ev);
    case Del(_, _, _) => ShortLives(cfg, s, ev);
  }

  // The log tells of the lifetime.

  /** Recording a journaled success, whole or torn or already done, tells of its own lifetime only. */
  lemma RecordTells(c: Codec, d: Disk, posted: map<string, HistoryRecord>, id: string, cursor: AwaitCursor, n: nat)
    requires Lawful(c) && d.journal.Some? && InProgress(c, d, d.journal.value) && LogTells(c, d, posted, id, cursor)
    requires n <= |RecordOps(c, d, d.journal.value)|
    ensures
      var d' := Run(d, RecordOps(c, d, d.journal.value)[..n]);
      && LogTells(c, d', posted, id, cursor)
      && (n == |RecordOps(c, d, d.journal.value)| ==> Present(c, d'.history, d.journal.value))
  {
    hide LogTells, Records, Newest, Lawful, AppendOps, AppendedBytes, Run, AlreadyRecorded, Forward, Extends;
    var j := d.journal.value;
    FoundIffPresent(c, d.history[..j.historyOffset.value], j, d);
    if AlreadyRecorded(c, d, j) {
      RunShort(d, [], 0);
    } else {
      AppendTells(c, d, posted, id, cursor, n);
    }
  }

  lemma {:induction false} AppendTells(c: Codec, d: Disk, posted: map<string, HistoryRecord>, id: string, cursor: AwaitCursor, n: nat)
    requires Lawful(c) && d.journal.Some? && InProgress(c, d, d.journal.value) && LogTells(c, d, posted, id, cursor)
    requires !Present(c, d.history, d.journal.value)
    requires n <= |AppendedBytes(c, d.history, d.journal.value.history.value)|
    ensures
      var bytes := AppendedBytes(c, d.history, d.journal.value.history.value);
      var d' := Run(d, AppendOps(bytes)[..n]);
      && LogTells(c, d', posted, id, cursor)
      && (n == |bytes| ==> Present(c, d'.history, d.journal.value))
  {
    hide Records, Newest, Lawful, AppendOps, AppendedBytes, Run, Reverse, Forward, Extends;
    var j := d.journal.value;
    var r := j.history.value;
    RunAppend(d, AppendedBytes(c, d.history, r), n);
    AppendedLength(c, d.history, r);
    AppendNewest(c, d.history, r, n, cursor.offset, id, Some(cursor));
    TornAppend(c, d.history, r, j.historyOffset.value, n);
  }

  lemma ReconcileTells(c: Codec, d: Disk, posted: map<string, HistoryRecord>, id: string, cursor: AwaitCursor, k: nat)
    requires Lawful(c) && (d.journal.Some? ==> InProgress(c, d, d.journal.value)) && LogTells(c, d, posted, id, cursor)
    requires k <= |ReconcileOps(c, d)|
    ensures LogTells(c, Run(d, ReconcileOps(c, d)[..k]), posted, id, cursor)
  {
    hide Records, Lawful, ReconcileOps, RecordOps, Run, NewestBound, UnmarkOps, DropOps, InProgress, Present;
    if d.journal.None? {
      NoJournal(c, d);
    } else {
      var n := ReconcileHistory(c, d, k);
      RecordTells(c, d, posted, id, cursor, n);
      RecordEffect(c, d, d.journal.value, n);
      ReconcileEffect(c, d, k);
    }
  }

  lemma {:induction false} RestartTells(cfg: Config, x: Chronicle, ev: Event, id: string, cursor: AwaitCursor)
    requires Chronicled(cfg, x) && ev.Restart? && Enabled(cfg, x.state, ev)
    requires LogTells(cfg.codec, x.state.disk, x.posted, id, cursor)
    ensures LogTells(cfg.codec, Step(cfg, x.state, ev).disk, x.posted, id, cursor)
  {
    hide Admitted, Run, ReclaimOps, ReconcileOps, QueueInv, TimeInv, LogTells, Lawful, InProgress, Tracks, Marks, Recorded;
    hide Uuids, Drawn, Refusal, Nameless;
    var s, c, d := x.state, cfg.codec, x.state.disk;
    var a := ReconcileOps(c, d);
    var mid := s.(disk := Run(d, a));
    assert a[..|a|] == a;
    ReconcileKeeps(cfg, s, |a|);
    FewerEntries(cfg, s, ev.uuid, |a|);
    AdmittedKeyed(cfg.fixed, mid.disk.entries);
    var b := ReclaimOps(Queue(mid.disk.entries), ev.uuid);
    assert RecoverOps(c, d, ev.uuid) == a + b;
    if ev.done < |a| {
      RunPrefix(d, a, b, ev.done);
      ReconcileTells(c, d, x.posted, id, cursor, ev.done);
    } else {
      RunPrefixRest(d, a, b, ev.done);
      ReconcileTells(c, d, x.posted, id, cursor, |a|);
      ReclaimKeeps(cfg, mid, ev.uuid, ev.done - |a|);
      SameFilesTell(c, mid.disk, Run(mid.disk, b[..ev.done - |a|]), x.posted, id, cursor);
    }
  }

  /** Entries and markers do not matter for what the log tells. */
  lemma SameFilesTell(c: Codec, d: Disk, d': Disk, posted: map<string, HistoryRecord>, id: string, cursor: AwaitCursor)
    requires LogTells(c, d, posted, id, cursor) && d'.history == d.history && d'.journal == d.journal
    ensures LogTells(c, d', posted, id, cursor)
  {
  }

  lemma {:induction false} CompleteTells(cfg: Config, x: Chronicle, ev: Event, id: string, cursor: AwaitCursor)
    requires Chronicled(cfg, x) && ev.Complete? && Enabled(cfg, x.state, ev) && Fits(cfg, x.state, ev)
    requires Awaited(cfg.codec, x, id, cursor)
    ensures LogTells(cfg.codec, After(cfg, x, ev).state.disk, After(cfg, x, ev).posted, id, cursor)
  {
    hide Admitted, Run, ReconcileOps, QueueInv, TimeInv, Lawful, Tracks, Marks, Recorded, LogTells, InProgress;
    var s, c := x.state, cfg.codec;
    var e, r := s.worker.entry, Success(s, ev);
    assert s.disk.journal == None by { PostingOpen(s); }
    if ev.done == 0 {
      RunShort(s.disk, [], 0);
    } else {
      var j := CompletionJournal(s.disk, e, r);
      var journaled := s.disk.(journal := Some(j));
      assert e.incarnation !in x.posted by { NotPosted(s); }
      JournalFactsHold(c, s.disk, x.latest, x.posted, e, r);
      JournalTells(c, s.disk, x.posted, e, r, id, cursor);
      var ops := ReconcileOps(c, journaled);
      RunPrefixRest(s.disk, [SetJournal(j)], ops, ev.done);
      RunShort(s.disk, [SetJournal(j)], 1);
      ReconcileTells(c, journaled, x.posted[e.incarnation := r], id, cursor, ev.done - 1);
    }
  }

  lemma JournalTells(c: Codec, d: Disk, posted: map<string, HistoryRecord>, e: StoredEntry, r: HistoryRecord, id: string, cursor: AwaitCursor)
    requires d.journal == None && LogTells(c, d, posted, id, cursor) && e.incarnation !in posted
    requires r.incarnation == e.incarnation && (e.incarnation == cursor.incarnation ==> e.id == id)
    ensures LogTells(c, d.(journal := Some(CompletionJournal(d, e, r))), posted[e.incarnation := r], id, cursor)
  {
    hide Records, NewestBound;
    assert Records(Forward(c), d.history, |d.history|) == [] by { RecordsFirst(Forward(c), d.history, |d.history|); }
  }

  /** The remaining events add no success to the log. */
  lemma {:induction false} OtherTells(cfg: Config, x: Chronicle, ev: Event, id: string, cursor: AwaitCursor)
    requires Chronicled(cfg, x) && Enabled(cfg, x.state, ev)
    requires ev.Die? || ev.Claim? || ev.Record? || ev.Release? || ev.Put? || ev.Bump? || ev.Bust? || ev.Del?
    requires LogTells(cfg.codec, x.state.disk, x.posted, id, cursor)
    ensures LogTells(cfg.codec, Step(cfg, x.state, ev).disk, x.posted, id, cursor)
  {
    hide Inv, Facts, Lawful, Run, Records, Newest, Reverse, Forward, Refusal;
    var s := x.state;
    if ev.Record? {
      assert s.disk.journal == None by { PostingJournal(cfg, s); }
      FailedNewest(cfg, s, ev, cursor.offset, id, Some(cursor));
    } else if !ev.Die? {
      var ops := Ops(cfg, s, ev);
      if |ops| <= 1 {
        RunShort(s.disk, ops, ev.done);
      } else {
        RunPair(s.disk, ops[0], ops[1], ev.done);
        assert ops == [ops[0], ops[1]];
      }
    }
  }

  lemma PostingJournal(cfg: Config, s: State)
    requires Inv(cfg, s) && s.worker.Posting?
    ensures s.disk.journal == None
  {
    hide Admitted, TimeInv;
    PostingOpen(s);
  }

  lemma AwaitedKept(cfg: Config, x: Chronicle, ev: Event, id: string, cursor: AwaitCursor)
    requires Chronicled(cfg, x) && Enabled(cfg, x.state, ev) && Fits(cfg, x.state, ev)
    requires x.state.open && !ev.Crash? && Awaited(cfg.codec, x, id, cursor)
    ensures Awaited(cfg.codec, After(cfg, x, ev), id, cursor)
  {
    hide Inv, Facts, Lawful, Run, Fits, LogTells, Belongs, Ops;
    BelongsKept(cfg, x, ev, id, cursor.incarnation);
    assert After(cfg, x, ev).state == Step(cfg, x.state, ev);
    match ev
    case Restart(_, _, _) => RestartTells(cfg, x, ev, id, cursor);
    case Complete(_, _, _, _, _, _) => CompleteTells(cfg, x, ev, id, cursor);
    case _ => OtherTells(cfg, x, ev, id, cursor);
  }

  /** No crash ends the wait's connection. */
  ghost predicate Connected(evs: seq<Event>) {
    forall i :: 0 <= i < |evs| ==> !evs[i].Crash?
  }

  lemma StaysOpen(cfg: Config, x: Chronicle, ev: Event)
    requires Enabled(cfg, x.state, ev) && x.state.open && !ev.Crash?
    ensures After(cfg, x, ev).state.open
  {
    hide Ops, Run;
  }

  lemma {:induction false} StoryAwaited(cfg: Config, x: Chronicle, evs: seq<Event>, id: string, cursor: AwaitCursor)
    requires Chronicled(cfg, x) && IsStory(cfg, x, evs) && x.state.open && Connected(evs) && Awaited(cfg.codec, x, id, cursor)
    ensures Awaited(cfg.codec, Told(cfg, x, evs), id, cursor)
    decreases |evs|
  {
    hide Chronicled, Enabled, Fits, After, Awaited;
    if evs != [] {
      StepChronicled(cfg, x, evs[0]);
      AwaitedKept(cfg, x, evs[0], id, cursor);
      StaysOpen(cfg, x, evs[0]);
      StoryAwaited(cfg, After(cfg, x, evs[0]), evs[1..], id, cursor);
    }
  }

  /**
  What a bound wait should be told: about its own lifetime, and nothing else.
  A post that is journaled and not recorded yet does not show.
  */
  ghost predicate ExactAnswer(cfg: Config, x: Chronicle, id: string, evs: seq<Event>)
    requires id in x.state.disk.entries && IsStory(cfg, x, evs)
  {
    var incarnation := x.state.disk.entries[id].incarnation;
    var cursor := AwaitCursor(|x.state.disk.history|, incarnation);
    var x' := Told(cfg, x, evs);
    var d := x'.state.disk;
    L.Lookup(cfg.codec, x'.state.disk, id, Some(cursor))
    == if id in x'.state.disk.entries && x'.state.disk.entries[id].incarnation == incarnation then L.Pending(cursor)
       else if incarnation in x'.posted && (Reconciling(d, incarnation) ==> Present(cfg.codec, d.history, d.journal.value))
       then L.Posted(x'.posted[incarnation].commentUrl, x'.posted[incarnation].postedAt)
       else L.Unknown
  }

  /** A later moment of the same connection. */
  ghost predicate Later(cfg: Config, x: Chronicle, evs: seq<Event>) {
    IsStory(cfg, x, evs) && Connected(evs)
  }

  /**
  A wait bound by its first answer to one lifetime is told, in every later
  state of the same connection, about that lifetime alone: pending exactly
  while that lifetime is queued, then its own success exactly if it was posted
  and the post is recorded, and otherwise that it is gone. Reusing the
  identifier changes nothing, nor do failing operations.
  */
  lemma {:induction false} BoundWaitIsExact(cfg: Config, x: Chronicle, id: string, evs: seq<Event>)
    requires Recounted(cfg, x) && x.state.open && id in x.state.disk.entries
    requires !BoundBehind(cfg.codec, x.state.disk, x.state.disk.entries[id].incarnation)
    requires Later(cfg, x, evs)
    ensures ExactAnswer(cfg, x, id, evs)
  {
    hide Inv, Facts, Lawful, Recounted, IsStory, Told, Records, Newest, Belongs, Connected;
    RecountedChronicled(cfg, x);
    var cursor := AwaitCursor(|x.state.disk.history|, x.state.disk.entries[id].incarnation);
    AwaitedAtFirst(cfg, x, id);
    StoryAwaited(cfg, x, evs, id, cursor);
    var log := Told(cfg, x, evs).state.disk.history;
    assert log[..|log|] == log;
  }

  /** The recovery that any open store with a journal can run next. */
  ghost function NextRecovery(cfg: Config, s: State): Event {
    Restart(_ => "", |RecoverOps(cfg.codec, s.disk, _ => "")|, true)
  }

  lemma RecoveryEnabled(cfg: Config, s: State)
    requires Inv(cfg, s) && s.open && s.disk.journal.Some?
    ensures Enabled(cfg, s, NextRecovery(cfg, s))
  {
    hide RecoverOps, Admitted, TimeInv;
    AdmittedKeyed(cfg.fixed, s.disk.entries);
    assert forall id :: !Nameless(s.disk.entries, id);
  }

  /** A whole recovery of a recorded completion leaves the log as it is and removes the entry. */
  lemma RecoveredBehind(cfg: Config, x: Chronicle, id: string)
    requires Chronicled(cfg, x) && x.state.open && id in x.state.disk.entries
    requires BoundBehind(cfg.codec, x.state.disk, x.state.disk.entries[id].incarnation)
    requires Enabled(cfg, x.state, NextRecovery(cfg, x.state))
    ensures
      var d := Step(cfg, x.state, NextRecovery(cfg, x.state)).disk;
      d.history == x.state.disk.history && id !in d.entries && d.journal == None
  {
    hide Run, ReconcileOps, ReclaimOps, Inv, Facts, Lawful, Records, Queue, UnmarkOps, InProgress;
    var s, c := x.state, cfg.codec;
    var d, uuid := s.disk, NextRecovery(cfg, s).uuid;
    var j := d.journal.value;
    ReconcilingFacts(cfg, x, id);
    var a := ReconcileOps(c, d);
    ReconcileEffect(c, d, |a|);
    assert a[..|a|] == a;
    AlreadyThere(c, d);
    var n := ReconcileHistory(c, d, |a|);
    assert RecordOps(c, d, j)[..n] == [];
    RunShort(d, [], 0);
    var mid := Run(d, a);
    RecoverTail(cfg, s, uuid);
  }

  lemma AlreadyThere(c: Codec, d: Disk)
    requires d.journal.Some? && InProgress(c, d, d.journal.value) && Present(c, d.history, d.journal.value)
    ensures RecordOps(c, d, d.journal.value) == []
  {
    hide Records;
    FoundIffPresent(c, d.history[..d.journal.value.historyOffset.value], d.journal.value, d);
  }

  /** Reclaiming after a whole reconciliation changes neither the log nor which entries there are. */
  lemma RecoverTail(cfg: Config, s: State, uuid: string -> string)
    requires Inv(cfg, s) && s.worker.Down? && NewUuids(s, uuid)
    ensures
      var mid := Run(s.disk, ReconcileOps(cfg.codec, s.disk));
      var ops := RecoverOps(cfg.codec, s.disk, uuid);
      var d := Run(s.disk, ops[..|ops|]);
      d.history == mid.history && d.entries.Keys == mid.entries.Keys && d.journal == mid.journal
  {
    hide Run, ReconcileOps, ReclaimOps, Admitted, QueueInv, TimeInv;
    var a := ReconcileOps(cfg.codec, s.disk);
    ReconcileKeeps(cfg, s, |a|);
    assert a[..|a|] == a;
    var mid := s.(disk := Run(s.disk, a));
    FewerEntries(cfg, s, uuid, |a|);
    AdmittedKeyed(cfg.fixed, mid.disk.entries);
    var b := ReclaimOps(Queue(mid.disk.entries), uuid);
    RunPrefixRest(s.disk, a, b, |a| + |b|);
    ReclaimKeeps(cfg, mid, uuid, |b|);
  }

  /** A wait bound behind its record is told that the comment is gone once recovery has run. */
  lemma BehindIsLost(cfg: Config, x: Chronicle, id: string)
    requires Recounted(cfg, x) && x.state.open && id in x.state.disk.entries
    requires BoundBehind(cfg.codec, x.state.disk, x.state.disk.entries[id].incarnation)
    ensures
      var evs := [NextRecovery(cfg, x.state)];
      Later(cfg, x, evs) && !ExactAnswer(cfg, x, id, evs)
  {
    hide Inv, Facts, Lawful, Recounted, Records, Newest, RecoverOps, Enabled, InProgress;
    RecountedChronicled(cfg, x);
    assert x.state.disk.journal.Some?;
    RecoveryEnabled(cfg, x.state);
    RecoveredBehind(cfg, x, id);
    ReconcilingFacts(cfg, x, id);
    var ev := NextRecovery(cfg, x.state);
    var x' := After(cfg, x, ev);
    OneEvent(cfg, x, ev);
    var log := x.state.disk.history;
    RecordsFirst(Reverse(cfg.codec), log, |log|);
    EmptyNewest(id, Some(AwaitCursor(|log|, x.state.disk.entries[id].incarnation)));
    assert log[..|log|] == log;
  }

  lemma OneEvent(cfg: Config, x: Chronicle, ev: Event)
    requires Enabled(cfg, x.state, ev) && Fits(cfg, x.state, ev)
    ensures IsStory(cfg, x, [ev]) && Told(cfg, x, [ev]) == After(cfg, x, ev)
  {
    hide Enabled, Fits, After;
    assert [ev][1..] == [];
  }

  lemma EmptyNewest(id: string, cursor: Option<AwaitCursor>)
    ensures Newest([], id, cursor) == None
  {
  }

  /**
  When a wait on a queued entry is always answered exactly, whatever happens
  next: if and only if the log does not hold that entry's success already. It
  does hold it only after a completion that failed between its append and its
  removal of the entry.
  */
  lemma {:induction false} BoundWaitIff(cfg: Config, x: Chronicle, id: string)
    requires Recounted(cfg, x) && x.state.open && id in x.state.disk.entries
    ensures (forall evs {:trigger Later(cfg, x, evs)} :: Later(cfg, x, evs) ==> ExactAnswer(cfg, x, id, evs))
       <==> !BoundBehind(cfg.codec, x.state.disk, x.state.disk.entries[id].incarnation)
  {
    hide Recounted, IsStory, Told, Connected, ExactAnswer, BoundBehind;
    if BoundBehind(cfg.codec, x.state.disk, x.state.disk.entries[id].incarnation) {
      BehindIsLost(cfg, x, id);
    } else {
      forall evs | Later(cfg, x, evs) ensures ExactAnswer(cfg, x, id, evs) {
        BoundWaitIsExact(cfg, x, id, evs);
      }
    }
  }

  // The same for every cut of one completion.

  /** What a completion cut after `k` file operations leaves, while its entry is still queued. */
  lemma CompletionCutOff(c: Codec, d: Disk, e: StoredEntry, r: HistoryRecord, k: nat)
    requires d.journal == None && 0 < k < |CompleteOps(c, d, e, r)|
    ensures
      var j, bytes := CompletionJournal(d, e, r), AppendedBytes(c, d.history, r);
      var failed := Run(d, CompleteOps(c, d, e, r)[..k]);
      && failed.journal == Some(j) && failed.history == d.history + bytes[..Min(k - 1, |bytes|)]
      && (failed.entries == d.entries || failed.entries == d.entries - {e.id})
      && (failed.tombstones == d.tombstones || failed.tombstones == d.tombstones - {e.id})
  {
    hide Run, Records, AppendOps, AppendedBytes, ReconcileOps, UnmarkOps, DropOps;
    var j, bytes := CompletionJournal(d, e, r), AppendedBytes(c, d.history, r);
    var journaled := d.(journal := Some(j));
    RecordsFirst(Forward(c), d.history, |d.history|);
    var a, t := RecordOps(c, journaled, j), TailOps(journaled, j);
    assert a == AppendOps(bytes);
    TailUnaffected(c, journaled, j);
    RunPrefixRest(d, [SetJournal(j)], a + t, k);
    RunShort(d, [SetJournal(j)], 1);
    RunPrefix(journaled, a, t, k - 1);
    RunAppend(journaled, bytes, Min(k - 1, |bytes|));
    assert a[..|a|] == a;
    if k - 1 > |a| {
      TailStep(Run(journaled, a), j, k - 1 - |a|);
    }
  }

  /** A cut completion has its record in the log exactly if the record's text was written whole. */
  lemma PresentIffWritten(c: Codec, d: Disk, e: StoredEntry, r: HistoryRecord, n: nat)
    requires Recordable(c, d.history, r) && n <= |AppendedBytes(c, d.history, r)|
    ensures
      var j, log := CompletionJournal(d, e, r), d.history + AppendedBytes(c, d.history, r)[..n];
      Present(c, log, j) <==> n >= |Separator(d.history)| + |c.encode(r)|
  {
    hide Records, Lawful, AppendedBytes;
    RecordsFirst(Forward(c), d.history, |d.history|);
    TornAppend(c, d.history, r, |d.history|, n);
  }

  /** What recovery makes of it. */
  lemma RecoveredFrom(c: Codec, d: Disk, e: StoredEntry, r: HistoryRecord, failed: Disk)
    requires Recordable(c, d.history, r) && e.claimToken.Some? && r.incarnation == e.incarnation
    requires failed.journal == Some(CompletionJournal(d, e, r)) && e.id in failed.entries && failed.entries[e.id] == e
    requires Interrupted(c, d.history, CompletionJournal(d, e, r), failed)
    ensures
      var recovered := Run(failed, ReconcileOps(c, failed));
      && e.id !in recovered.entries && e.id !in recovered.tombstones
      && recovered.history == if Present(c, failed.history, CompletionJournal(d, e, r)) then failed.history
                              else failed.history + AppendedBytes(c, failed.history, r)
  {
    hide Run, Records, AppendOps, AppendedBytes, ReconcileOps, AlreadyRecorded, Lawful;
    var j, bytes := CompletionJournal(d, e, r), AppendedBytes(c, failed.history, r);
    FoundIffPresent(c, d.history, j, failed);
    assert AlreadyRecorded(c, failed, j) <==> Present(c, failed.history, j);
    var record := RecordOps(c, failed, j);
    assert record[..|record|] == record;
    var ops := ReconcileOps(c, failed);
    var n := ReconcileHistory(c, failed, |ops|);
    RunShort(failed, [], 0);
    RunAppend(failed, bytes, |bytes|);
    assert bytes[..|bytes|] == bytes;
    ReconcileEffect(c, failed, |ops|);
    assert ops[..|ops|] == ops;
  }

  /**
  For every completion that fails after any of its file operations with the
  entry still queued: a wait begun then is told of the post after recovery if
  and only if the failure came before the record's text was whole. A fresh wait
  is given the URL in either case.
  */
  lemma BoundAtCut(c: Codec, d: Disk, e: StoredEntry, r: HistoryRecord, k: nat)
    requires d.journal == None && Recordable(c, d.history, r)
    requires e.id in d.entries && d.entries[e.id] == e && e.claimToken.Some?
    requires r.id == e.id && r.incarnation == e.incarnation && r.success
    requires 0 < k < |CompleteOps(c, d, e, r)| && e.id in Run(d, CompleteOps(c, d, e, r)[..k]).entries
    ensures
      var failed := Run(d, CompleteOps(c, d, e, r)[..k]);
      var cursor := AwaitCursor(|failed.history|, e.incarnation);
      var recovered := Run(failed, ReconcileOps(c, failed));
      && L.Lookup(c, failed, e.id, None) == L.Pending(cursor)
      && L.Lookup(c, recovered, e.id, Some(cursor))
         == (if k <= |Separator(d.history)| + |c.encode(r)| then L.Posted(r.commentUrl, r.postedAt) else L.Unknown)
      && L.Lookup(c, recovered, e.id, None) == L.Posted(r.commentUrl, r.postedAt)
  {
    hide Run, Records, Newest, AppendedBytes, ReconcileOps, CompleteOps, Lawful, L.Lookup, Interrupted, Present, Recordable;
    var bytes := AppendedBytes(c, d.history, r);
    var n := Min(k - 1, |bytes|);
    var failed := Run(d, CompleteOps(c, d, e, r)[..k]);
    CompletionCutOff(c, d, e, r, k);
    AppendedLength(c, d.history, r);
    PresentIffWritten(c, d, e, r, n);
    assert Interrupted(c, d.history, CompletionJournal(d, e, r), failed) by { CutInterrupted(c, d, e, r, k); }
    RecoveredFrom(c, d, e, r, failed);
    LookedUpAfter(c, d, e, r, n, failed, Run(failed, ReconcileOps(c, failed)));
  }

  lemma CutInterrupted(c: Codec, d: Disk, e: StoredEntry, r: HistoryRecord, k: nat)
    requires d.journal == None && Recordable(c, d.history, r) && 0 < k < |CompleteOps(c, d, e, r)|
    ensures Interrupted(c, d.history, CompletionJournal(d, e, r), Run(d, CompleteOps(c, d, e, r)[..k]))
  {
    hide Run, ReconcileOps, Recordable, Interrupted, Finished, Records;
    var j := CompletionJournal(d, e, r);
    var journaled := d.(journal := Some(j));
    JournaledIsInterrupted(c, d, e, r);
    RunPrefixRest(d, [SetJournal(j)], ReconcileOps(c, journaled), k);
    RunShort(d, [SetJournal(j)], 1);
    RecoveryAttempt(c, d.history, j, journaled, k - 1);
  }

  lemma LookedUpAfter(c: Codec, d: Disk, e: StoredEntry, r: HistoryRecord, n: nat, failed: Disk, recovered: Disk)
    requires Recordable(c, d.history, r) && r.id == e.id && r.incarnation == e.incarnation && r.success
    requires n <= |AppendedBytes(c, d.history, r)| && failed.history == d.history + AppendedBytes(c, d.history, r)[..n]
    requires e.id in failed.entries && failed.entries[e.id] == e
    requires e.id !in recovered.entries && e.id !in recovered.tombstones
    requires recovered.history == if n >= |Separator(d.history)| + |c.encode(r)| then failed.history
                                  else failed.history + AppendedBytes(c, failed.history, r)
    ensures
      var cursor := AwaitCursor(|failed.history|, e.incarnation);
      && L.Lookup(c, failed, e.id, None) == L.Pending(cursor)
      && L.Lookup(c, recovered, e.id, Some(cursor))
         == (if n < |Separator(d.history)| + |c.encode(r)| then L.Posted(r.commentUrl, r.postedAt) else L.Unknown)
      && L.Lookup(c, recovered, e.id, None) == L.Posted(r.commentUrl, r.postedAt)
  {
    hide Records, Lawful, AppendedBytes, Reverse, Newest;
    var log, cursor := recovered.history, AwaitCursor(|failed.history|, e.incarnation);
    assert log[..|log|] == log;
    AppendNewest(c, d.history, r, n, 0, e.id, None);
    RecordsFirst(Reverse(c), failed.history, |failed.history|);
    EmptyNewest(e.id, Some(cursor));
    if n < |Separator(d.history)| + |c.encode(r)| {
      var bytes := AppendedBytes(c, failed.history, r);
      AppendedLength(c, failed.history, r);
      assert bytes[..|bytes|] == bytes;
      AppendNewest(c, failed.history, r, |bytes|, 0, e.id, None);
      AppendNewest(c, failed.history, r, |bytes|, |failed.history|, e.id, Some(cursor));
    }
  }
}
